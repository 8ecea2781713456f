/**
 * The descriptive texts of a stanza error (section 8.3 of RFC 6120): one
 * `<text/>` per language. The builder keys them by language; a missing
 * (null) language key is refused, while the empty language is a proper key.
 */
module StanzaErrors {
  import opened Wrappers

  datatype BuildError = IllegalArgument(message: string)

  /**
   * StanzaError.Builder.setDescriptiveTexts(texts).build(): the texts by
   * language, or IllegalArgumentException when one of them is keyed by null
   * (None).
   */
  function BuildDescriptiveTexts(texts: map<Option<string>, string>): (r: Result<map<string, string>, BuildError>)
    ensures r.Err? <==> None in texts
    ensures r.Ok? ==> forall l :: (l in r.value <==> Some(l) in texts) && (l in r.value ==> r.value[l] == texts[Some(l)])
  {
    if None in texts then Err(IllegalArgument("descriptive text languages must not be null"))
    else
      var r := map k | k in texts && k.Some? :: k.value := texts[k];
      assert forall l :: Some(l) in texts ==> l in r && r[l] == texts[Some(l)] by {
        forall l | Some(l) in texts ensures l in r && r[l] == texts[Some(l)] {
          assert Some(l).value == l;
        }
      }
      Ok(r)
  }
}
