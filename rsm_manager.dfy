/**
 * Result set management (XEP-0059) paging helper: it builds the extension
 * list of a request for the first page, and of a request for the page after
 * the one a reply returned.
 */
module ResultSetManagement {
  import opened Wrappers

  /** RSMSet.ELEMENT and RSMSet.NAMESPACE. */
  const ELEMENT: string := "set"
  const NAMESPACE: string := "http://jabber.org/protocol/rsm"

  datatype PageDirection = Before | After

  /**
   * An RSM `<set/>`: the page size and the `<after/>`, `<before/>` and
   * `<last/>` ids (None for null); the other RSM fields are not used here.
   */
  datatype RsmSet = RsmSet(max: int, after: Option<string>, before: Option<string>, last: Option<string>)

  /** An extension element: an RSM set, or any other element with its name and namespace. */
  datatype Extension =
    | Rsm(rsmSet: RsmSet)
    | OtherExtension(element: string, namespace: string)
  {
    function ElementName(): string {
      if Rsm? then ELEMENT else element
    }

    function Namespace(): string {
      if Rsm? then NAMESPACE else namespace
    }
  }

  datatype RsmError =
    /** IllegalArgumentException. */
    | IllegalArgument(message: string)
    /** ClassCastException: the element found under the RSM name is not an RSM set object. */
    | ClassCast

  /** `new RSMSet(max)`: a page size and nothing else. */
  function FirstPageSet(max: int): (s: RsmSet)
    ensures s.max == max && s.after.None? && s.before.None? && s.last.None?
  {
    RsmSet(max, None, None, None)
  }

  /** `new RSMSet(max, value, direction)`: `value` goes into `<after/>` or `<before/>`, as the direction says. */
  function DirectedSet(max: int, value: Option<string>, direction: PageDirection): (s: RsmSet)
    ensures s.max == max && s.last.None?
    ensures direction == After ==> s.after == value && s.before.None?
    ensures direction == Before ==> s.before == value && s.after.None?
  {
    match direction
    case After => RsmSet(max, value, None, None)
    case Before => RsmSet(max, None, value, None)
  }

  /** The element at `i` is named `set` in the RSM namespace. */
  predicate IsRsmElement(extensions: seq<Extension>, i: int) {
    0 <= i < |extensions| && extensions[i].ElementName() == ELEMENT && extensions[i].Namespace() == NAMESPACE
  }

  /** The index of the first element named `set` in the RSM namespace. */
  function FirstRsmElement(extensions: seq<Extension>): (k: Option<nat>)
    ensures k.None? <==> forall i :: 0 <= i < |extensions| ==> !IsRsmElement(extensions, i)
    ensures k.Some? ==> IsRsmElement(extensions, k.value) && forall j :: 0 <= j < k.value ==> !IsRsmElement(extensions, j)
  {
    if extensions == [] then None
    else if IsRsmElement(extensions, 0) then Some(0)
    else
      var k := FirstRsmElement(extensions[1..]);
      assert forall i :: 0 <= i < |extensions| - 1 ==> (IsRsmElement(extensions[1..], i) <==> IsRsmElement(extensions, i + 1));
      if k.Some? then
        assert forall j :: 0 <= j < k.value + 1 ==> !IsRsmElement(extensions, j) by {
          forall j | 1 <= j < k.value + 1 ensures !IsRsmElement(extensions, j) {
            assert !IsRsmElement(extensions[1..], j - 1);
          }
        }
        Some(k.value + 1)
      else
        assert forall i :: 0 <= i < |extensions| ==> !IsRsmElement(extensions, i) by {
          forall i | 1 <= i < |extensions| ensures !IsRsmElement(extensions, i) {
            assert !IsRsmElement(extensions[1..], i - 1);
          }
        }
        None
  }

  /**
   * PacketUtil.extensionElementFrom(extensions, ELEMENT, NAMESPACE), cast to
   * RSMSet: the first element with that name and namespace, or null.
   */
  function FindRsmSet(extensions: seq<Extension>): (r: Result<Option<RsmSet>, RsmError>)
    ensures r == Ok(None) <==> FirstRsmElement(extensions).None?
    ensures FirstRsmElement(extensions).Some? ==> (r.Ok? <==> extensions[FirstRsmElement(extensions).value].Rsm?)
    ensures r.Ok? && r.value.Some? ==> extensions[FirstRsmElement(extensions).value] == Rsm(r.value.value)
    ensures r.Err? ==> r.error == ClassCast
  {
    match FirstRsmElement(extensions)
    case None => Ok(None)
    case Some(i) => if extensions[i].Rsm? then Ok(Some(extensions[i].rsmSet)) else Err(ClassCast)
  }

  /**
   * The RSM set continuePage appends: after the `<last/>` of the set the
   * reply returned, with the same page size; an error when the reply holds
   * none.
   */
  function ContinueSet(max: int, returned: seq<Extension>): (r: Result<RsmSet, RsmError>)
    ensures FindRsmSet(returned) == Ok(None) ==> r.Err? && r.error.IllegalArgument?
    ensures r.Ok? ==> FindRsmSet(returned).Ok? && FindRsmSet(returned).value.Some?
                      && r.value == DirectedSet(max, FindRsmSet(returned).value.value.last, After)
  {
    match FindRsmSet(returned)
    case Err(e) => Err(e)
    case Ok(None) => Err(IllegalArgument("returnedExtensions did not contain a RSMset"))
    case Ok(Some(found)) => Ok(DirectedSet(max, found.last, After))
  }

  /**
   * A reply whose first RSM element is the set `s`, after any number of other
   * extensions: the next request asks, with the same page size, for what
   * comes after `s`'s last id.
   */
  lemma ContinueAfterReturnedLast(max: int, others: seq<Extension>, s: RsmSet, rest: seq<Extension>)
    requires forall i :: 0 <= i < |others| ==> !IsRsmElement(others, i)
    ensures ContinueSet(max, others + [Rsm(s)] + rest) == Ok(RsmSet(max, s.last, None, None))
  {
    var returned := others + [Rsm(s)] + rest;
    FirstAfterOthers(others, Rsm(s), rest);
    assert returned[|others|] == Rsm(s);
  }

  /** The first RSM element of a list whose prefix `others` holds none is the element right after it. */
  lemma FirstAfterOthers(others: seq<Extension>, x: Extension, rest: seq<Extension>)
    requires forall i :: 0 <= i < |others| ==> !IsRsmElement(others, i)
    requires x.Rsm?
    ensures FirstRsmElement(others + [x] + rest) == Some(|others|)
  {
    var returned := others + [x] + rest;
    assert IsRsmElement(returned, |others|);
    forall j | 0 <= j < |others| ensures !IsRsmElement(returned, j) {
      assert returned[j] == others[j];
      assert !IsRsmElement(others, j);
    }
  }

  /** A mutable extension list (a java.util.Collection of XmlElement). */
  class ExtensionList {
    var elements: seq<Extension>

    constructor (elements: seq<Extension>)
      ensures this.elements == elements
    {
      this.elements := elements;
    }

    method Add(e: Extension)
      modifies this
      ensures elements == old(elements) + [e]
    {
      elements := elements + [e];
    }
  }

  /** page(max): a new list holding one RSM set with that page size. */
  method Page(max: int) returns (r: ExtensionList)
    ensures fresh(r)
    ensures r.elements == [Rsm(FirstPageSet(max))]
  {
    r := new ExtensionList([]);
    r.Add(Rsm(FirstPageSet(max)));
  }

  /**
   * continuePage(max, returnedExtensions, additionalExtensions): appends to
   * `additional` (a new list when it is null) the set that asks for the page
   * after the returned one, and returns that same list.
   */
  method ContinuePageInto(max: int, returned: ExtensionList?, additional: ExtensionList?) returns (r: Result<ExtensionList, RsmError>)
    modifies additional
    ensures returned == null ==> r.Err? && r.error.IllegalArgument?
    ensures returned == null || ContinueSet(max, old(returned.elements)).Err? ==> additional == null || unchanged(additional)
    ensures returned != null ==>
              (ContinueSet(max, old(returned.elements)).Err? <==> r.Err?)
              && (r.Err? ==> r.error == ContinueSet(max, old(returned.elements)).error)
    ensures returned != null && r.Ok? ==>
              (additional != null ==> r.value == additional)
              && (additional == null ==> fresh(r.value))
              && r.value.elements == (if additional == null then [] else old(additional.elements))
                                     + [Rsm(ContinueSet(max, old(returned.elements)).value)]
  {
    if returned == null {
      return Err(IllegalArgument("returnedExtensions must no be null"));
    }
    var list := additional;
    if list == null {
      list := new ExtensionList([]);
    }
    var resultRsmSet := FindRsmSet(returned.elements);
    match resultRsmSet {
      case Err(e) =>
        return Err(e);
      case Ok(None) =>
        return Err(IllegalArgument("returnedExtensions did not contain a RSMset"));
      case Ok(Some(found)) =>
        var continuePageRsmSet := DirectedSet(max, found.last, After);
        list.Add(Rsm(continuePageRsmSet));
        r := Ok(list);
    }
  }

  /** continuePage(max, returnedExtensions): continuePage with a null additional list. */
  method ContinuePage(max: int, returned: ExtensionList?) returns (r: Result<ExtensionList, RsmError>)
    ensures returned == null ==> r.Err? && r.error.IllegalArgument?
    ensures returned != null ==>
              (ContinueSet(max, returned.elements).Err? <==> r.Err?)
              && (r.Err? ==> r.error == ContinueSet(max, returned.elements).error)
              && (r.Ok? ==> fresh(r.value) && r.value.elements == [Rsm(ContinueSet(max, returned.elements).value)])
  {
    r := ContinuePageInto(max, returned, null);
  }
}
