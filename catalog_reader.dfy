/** GetMatchingTemplates: list the source account and keep the templates whose
    name starts with the prefix, or all of them when there is no prefix. */
module CatalogReader {
  import opened Common
  import opened TemplatesModel
  import opened SendGridService

  /** The filter of `Where(t => t.Name.StartsWith(prefix))`. */
  function HasPrefix(prefix: string): Template -> bool
  {
    (t: Template) => prefix <= t.name
  }

  /** The listing filtered by the optional prefix; no prefix keeps the listing as it is. */
  function MatchingTemplates(listing: seq<Template>, prefix: Option<string>): (r: seq<Template>)
    ensures forall i :: 0 <= i < |r| ==> r[i] in listing && (prefix.None? || prefix.value <= r[i].name)
    ensures forall i :: 0 <= i < |listing| && (prefix.None? || prefix.value <= listing[i].name) ==> listing[i] in r
    ensures prefix.None? ==> r == listing
  {
    if prefix.None? then listing
    else
      WhereMembers(listing, HasPrefix(prefix.value));
      Where(listing, HasPrefix(prefix.value))
  }

  /** With a prefix, the result is exactly the listed templates whose name starts
      with it, at increasing positions of the listing (original order, duplicates
      kept): `positions` picks them out, and every matching position is picked. */
  lemma MatchingTemplatesInOrder(listing: seq<Template>, prefix: string)
    ensures var r := MatchingTemplates(listing, Some(prefix));
            var positions := KeptPositions(listing, HasPrefix(prefix));
            && |r| == |positions|
            && (forall k :: 0 <= k < |r| ==> positions[k] < |listing| && r[k] == listing[positions[k]])
            && (forall k, l :: 0 <= k < l < |positions| ==> positions[k] < positions[l])
            && (forall i :: 0 <= i < |listing| ==> (i in positions <==> prefix <= listing[i].name))
  {
    WhereAtKeptPositions(listing, HasPrefix(prefix));
  }

  /** Filtering a concatenated listing filters each part: the order of the listing
      is preserved. */
  lemma MatchingTemplatesOfConcat(a: seq<Template>, b: seq<Template>, prefix: Option<string>)
    ensures MatchingTemplates(a + b, prefix) == MatchingTemplates(a, prefix) + MatchingTemplates(b, prefix)
  {
    if prefix.Some? {
      WhereDistributes(a, b, HasPrefix(prefix.value));
    }
  }

  /** The empty prefix keeps every template, like no prefix at all. */
  lemma {:induction false} EmptyPrefixKeepsAll(listing: seq<Template>)
    ensures MatchingTemplates(listing, Some("")) == listing
    decreases |listing|
  {
    if listing != [] {
      var init := listing[..|listing| - 1];
      EmptyPrefixKeepsAll(init);
      assert listing == init + [listing[|listing| - 1]];
    }
  }

  /** GetMatchingTemplates: GET templates on the source account, then the prefix filter. */
  method GetMatchingTemplates(source: Account, prefix: Option<string>) returns (items: seq<Template>)
    requires source.Valid()
    ensures exists listing :: Lists(listing, source.View()) && items == MatchingTemplates(listing, prefix)
  {
    var listing := source.List();
    items := MatchingTemplates(listing, prefix);
  }
}
