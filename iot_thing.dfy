/**
 * An IoT Thing (XEP-0347 discovery meta-tags) and its builder. The builder's
 * setters write tags under fixed keys into a tag map; the Thing a builder
 * builds shares that very map, so setter calls after build() still show in
 * the Thing's meta-tags.
 */
module IotThing {
  import opened Wrappers

  /** Tag.Type: the meta-tag value kinds used here. */
  datatype TagType = Str | Num

  /** A discovery meta-tag: its name, value kind and value. */
  datatype Tag = Tag(name: string, tagType: TagType, value: string)

  /** The meta-tag names the builder writes. */
  const SERIAL_NUMBER: string := "SN"
  const KEY: string := "KEY"
  const MANUFACTURER: string := "MAN"
  const MODEL: string := "MODEL"
  const VERSION: string := "V"

  const TAG_NAMES: set<string> := {SERIAL_NUMBER, KEY, MANUFACTURER, MODEL, VERSION}

  /** The node a Thing is reached under; NodeInfo is not part of this model beyond its three ids. */
  datatype NodeInfo = NodeInfo(nodeId: Option<string>, sourceId: Option<string>, cacheType: Option<string>)

  /** NodeInfo.EMPTY: no ids. */
  const EMPTY_NODE_INFO: NodeInfo := NodeInfo(None, None, None)

  /** A ThingMomentaryReadOutRequest callback, known only by identity. */
  datatype ReadOutHandler = ReadOutHandler(id: nat)

  /** `metaTags.put(name, new Tag(name, type, value))`. */
  function PutTag(tags: map<string, Tag>, name: string, tagType: TagType, value: string): (r: map<string, Tag>)
    ensures r.Keys == tags.Keys + {name}
    ensures r[name] == Tag(name, tagType, value)
    ensures forall k :: k in tags && k != name ==> r[k] == tags[k]
  {
    tags[name := Tag(name, tagType, value)]
  }

  /** A tag map as the builder keeps it: only the five fixed names, each under its own name. */
  predicate ValidTags(tags: map<string, Tag>) {
    tags.Keys <= TAG_NAMES && forall k :: k in tags ==> tags[k].name == k
  }

  /** Setting the same key twice keeps only the later value. */
  lemma LatestValueWins(tags: map<string, Tag>, name: string, t1: TagType, v1: string, t2: TagType, v2: string)
    ensures PutTag(PutTag(tags, name, t1, v1), name, t2, v2) == PutTag(tags, name, t2, v2)
  {
  }

  /** Setters for different keys can be called in either order. */
  lemma DistinctKeysCommute(tags: map<string, Tag>, n1: string, t1: TagType, v1: string, n2: string, t2: TagType, v2: string)
    requires n1 != n2
    ensures PutTag(PutTag(tags, n1, t1, v1), n2, t2, v2) == PutTag(PutTag(tags, n2, t2, v2), n1, t1, v1)
  {
  }

  /** A setter keeps the tag map valid. */
  lemma PutTagValid(tags: map<string, Tag>, name: string, tagType: TagType, value: string)
    requires ValidTags(tags) && name in TAG_NAMES
    ensures ValidTags(PutTag(tags, name, tagType, value))
  {
  }

  /** A map has no more distinct values than keys. */
  lemma {:induction false} ValuesBound(tags: map<string, Tag>)
    ensures |tags.Values| <= |tags.Keys|
    decreases |tags.Keys|
  {
    if tags.Keys != {} {
      var k :| k in tags.Keys;
      var rest := tags - {k};
      assert rest.Keys == tags.Keys - {k};
      ValuesBound(rest);
      assert tags.Values <= rest.Values + {tags[k]} by {
        forall v | v in tags.Values ensures v in rest.Values + {tags[k]} {
          var j :| j in tags && tags[j] == v;
          if j != k {
            assert rest[j] == v;
          }
        }
      }
      assert |rest.Values + {tags[k]}| <= |rest.Values| + 1;
    }
  }

  /** At most one tag per key, hence at most five meta-tags. */
  lemma AtMostFiveTags(tags: map<string, Tag>)
    requires ValidTags(tags)
    ensures |tags.Values| <= 5
  {
    ValuesBound(tags);
    assert |TAG_NAMES| == 5;
    assert |tags.Keys| <= |TAG_NAMES| by {
      SubsetSize(tags.Keys, TAG_NAMES);
    }
  }

  lemma {:induction false} SubsetSize(a: set<string>, b: set<string>)
    requires a <= b
    ensures |a| <= |b|
    decreases |b|
  {
    if b != {} {
      var x :| x in b;
      SubsetSize(a - {x}, b - {x});
    }
  }

  /** The java.util.HashMap of tags that a builder and the Things it built share. */
  class TagMap {
    var tags: map<string, Tag>

    constructor ()
      ensures tags == map[]
    {
      tags := map[];
    }

    method Put(name: string, tagType: TagType, value: string)
      modifies this
      ensures tags == PutTag(old(tags), name, tagType, value)
    {
      tags := tags[name := Tag(name, tagType, value)];
    }
  }

  class Thing {
    const metaTags: TagMap
    const selfOwned: bool
    const nodeInfo: NodeInfo
    const momentaryReadOutRequestHandler: Option<ReadOutHandler>

    /** `new Thing(builder)`: takes the builder's map itself, not a copy. */
    constructor (metaTags: TagMap, selfOwned: bool, nodeInfo: NodeInfo, handler: Option<ReadOutHandler>)
      ensures this.metaTags == metaTags && this.selfOwned == selfOwned
      ensures this.nodeInfo == nodeInfo && this.momentaryReadOutRequestHandler == handler
    {
      this.metaTags := metaTags;
      this.selfOwned := selfOwned;
      this.nodeInfo := nodeInfo;
      this.momentaryReadOutRequestHandler := handler;
    }

    /** getMetaTags(): the tags now in the shared map, at most five of them while the map is valid. */
    function MetaTags(): (r: set<Tag>)
      reads this, metaTags
      ensures forall t :: t in r <==> exists k :: k in metaTags.tags && metaTags.tags[k] == t
      ensures ValidTags(metaTags.tags) ==> |r| <= 5 && forall t :: t in r ==> t.name in TAG_NAMES
    {
      assert ValidTags(metaTags.tags) ==> |metaTags.tags.Values| <= 5 by {
        if ValidTags(metaTags.tags) {
          AtMostFiveTags(metaTags.tags);
        }
      }
      metaTags.tags.Values
    }

    /** getNodeId(), getSourceId(), getCacheType(): read through the node info. */
    function NodeId(): (r: Option<string>)
      reads this
      ensures nodeInfo == EMPTY_NODE_INFO ==> r.None?
    {
      nodeInfo.nodeId
    }

    function SourceId(): (r: Option<string>)
      reads this
      ensures nodeInfo == EMPTY_NODE_INFO ==> r.None?
    {
      nodeInfo.sourceId
    }

    function CacheType(): (r: Option<string>)
      reads this
      ensures nodeInfo == EMPTY_NODE_INFO ==> r.None?
    {
      nodeInfo.cacheType
    }
  }

  class Builder {
    const metaTags: TagMap
    var selfOwned: bool
    var nodeInfo: NodeInfo
    var momentaryReadOutRequest: Option<ReadOutHandler>

    predicate Valid()
      reads this, metaTags
    {
      ValidTags(metaTags.tags) && !selfOwned
    }

    /** Thing.builder() / `new Builder()`: no tags, not self-owned, the empty node info, no handler. */
    constructor ()
      ensures fresh(metaTags) && metaTags.tags == map[]
      ensures !selfOwned && nodeInfo == EMPTY_NODE_INFO && momentaryReadOutRequest.None?
      ensures Valid()
    {
      metaTags := new TagMap();
      selfOwned := false;
      nodeInfo := EMPTY_NODE_INFO;
      momentaryReadOutRequest := None;
    }

    /** setSerialNumber(sn): the `SN` tag, of kind str. */
    method SetSerialNumber(sn: string) returns (b: Builder)
      requires Valid()
      modifies metaTags
      ensures b == this && Valid()
      ensures metaTags.tags == PutTag(old(metaTags.tags), SERIAL_NUMBER, Str, sn)
    {
      PutTagValid(metaTags.tags, SERIAL_NUMBER, Str, sn);
      metaTags.Put(SERIAL_NUMBER, Str, sn);
      b := this;
    }

    /** setKey(key): the `KEY` tag, of kind str. */
    method SetKey(key: string) returns (b: Builder)
      requires Valid()
      modifies metaTags
      ensures b == this && Valid()
      ensures metaTags.tags == PutTag(old(metaTags.tags), KEY, Str, key)
    {
      PutTagValid(metaTags.tags, KEY, Str, key);
      metaTags.Put(KEY, Str, key);
      b := this;
    }

    /** setManufacturer(manufacturer): the `MAN` tag, of kind str. */
    method SetManufacturer(manufacturer: string) returns (b: Builder)
      requires Valid()
      modifies metaTags
      ensures b == this && Valid()
      ensures metaTags.tags == PutTag(old(metaTags.tags), MANUFACTURER, Str, manufacturer)
    {
      PutTagValid(metaTags.tags, MANUFACTURER, Str, manufacturer);
      metaTags.Put(MANUFACTURER, Str, manufacturer);
      b := this;
    }

    /** setModel(model): the `MODEL` tag, of kind str. */
    method SetModel(model: string) returns (b: Builder)
      requires Valid()
      modifies metaTags
      ensures b == this && Valid()
      ensures metaTags.tags == PutTag(old(metaTags.tags), MODEL, Str, model)
    {
      PutTagValid(metaTags.tags, MODEL, Str, model);
      metaTags.Put(MODEL, Str, model);
      b := this;
    }

    /** setVersion(version): the `V` tag, of kind num. */
    method SetVersion(version: string) returns (b: Builder)
      requires Valid()
      modifies metaTags
      ensures b == this && Valid()
      ensures metaTags.tags == PutTag(old(metaTags.tags), VERSION, Num, version)
    {
      PutTagValid(metaTags.tags, VERSION, Num, version);
      metaTags.Put(VERSION, Num, version);
      b := this;
    }

    /** setMomentaryReadOutRequestHandler(handler): only the handler changes. */
    method SetMomentaryReadOutRequestHandler(handler: Option<ReadOutHandler>) returns (b: Builder)
      requires Valid()
      modifies this
      ensures b == this && Valid()
      ensures momentaryReadOutRequest == handler
      ensures selfOwned == old(selfOwned) && nodeInfo == old(nodeInfo) && metaTags.tags == old(metaTags.tags)
    {
      momentaryReadOutRequest := handler;
      b := this;
    }

    /** build(): a new Thing over the builder's own tag map, never self-owned. */
    method Build() returns (t: Thing)
      requires Valid()
      ensures fresh(t)
      ensures t.metaTags == metaTags && !t.selfOwned
      ensures t.nodeInfo == nodeInfo && t.momentaryReadOutRequestHandler == momentaryReadOutRequest
    {
      t := new Thing(metaTags, selfOwned, nodeInfo, momentaryReadOutRequest);
    }
  }

  /**
   * The map is shared: a setter called on the builder after build() changes
   * what the built Thing reports.
   */
  method SetAfterBuild(b: Builder, sn: string) returns (t: Thing)
    requires b.Valid()
    modifies b.metaTags
    ensures Tag(SERIAL_NUMBER, Str, sn) in t.MetaTags() && |t.MetaTags()| <= 5
  {
    t := b.Build();
    var same := b.SetSerialNumber(sn);
    assert t.metaTags.tags[SERIAL_NUMBER] == Tag(SERIAL_NUMBER, Str, sn);
  }
}
