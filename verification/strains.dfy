/** The free-text strain list of the export tab: `valid_export_textarea`, which labels and
    enables the export button, and the token loop that `ad_export` shares with it. */
module StrainList {
  import opened Base
  import opened TextOps

  /** The strain names typed into the text area: newlines made spaces, then split on
      whitespace. */
  function StrainTokens(text: string): (items: seq<string>)
    ensures items == Split(text)
  {
    NewlinesAlreadySplit(text);
    Split(NewlinesToSpaces(text))
  }

  /** The loop over the tokens: a name is appended to the list the first time the set does
      not hold it yet. */
  method UniqueStrains(items: seq<string>) returns (list: seq<string>, seen: set<string>)
    ensures list == Dedup(items)
    ensures seen == set x | x in items
    ensures |seen| == |list|
  {
    list, seen := [], {};
    for k := 0 to |items|
      invariant list == Dedup(items[..k])
      invariant seen == set x | x in items[..k]
      invariant seen == set x | x in list
    {
      var e := items[k];
      ghost var next := items[..k + 1];
      assert next[..k] == items[..k] && next == items[..k] + [e];
      if e !in seen {
        seen := seen + {e};
        list := list + [e];
      }
    }
    assert items[..|items|] == items;
    DedupCount(items);
  }

  /** The names the export looks up: no name twice, every token and nothing else, each at
      the place where the text first mentions it. */
  lemma StrainListShape(text: string)
    ensures var list := Dedup(StrainTokens(text));
      && Distinct(list)
      && (forall x :: x in list ==> x in Split(text))
      && (forall x :: x in Split(text) ==> x in list)
      && (forall i, j :: 0 <= i < j < |list| ==>
            list[i] in Split(text) && list[j] in Split(text)
            && IndexOf(Split(text), list[i]) < IndexOf(Split(text), list[j]))
  {
    var items := StrainTokens(text);
    DedupDistinct(items);
    DedupMembers(items);
    DedupFirstAppearanceOrder(items);
  }

  /** `valid_export_textarea`: without text the button reads "Export IDs" and is disabled;
      with text it counts the distinct names and is enabled. */
  method ValidExportTextarea(text: Option<string>) returns (caption: string, disabled: bool)
    ensures disabled <==> !Filled(text)
    ensures !Filled(text) ==> caption == "Export IDs"
    ensures Filled(text) ==>
      caption == "Export " + NatText(|set x | x in Split(text.value)|) + " IDs"
      && caption == "Export " + NatText(|Dedup(Split(text.value))|) + " IDs"
  {
    if !Filled(text) {
      return "Export IDs", true;
    }
    var items := StrainTokens(text.value);
    var list, seen := UniqueStrains(items);
    caption, disabled := "Export " + NatText(|seen|) + " IDs", false;
  }

  /** Text holding only whitespace still enables the button, with a count of zero. */
  lemma BlankTextCountsNothing(text: string)
    requires text != [] && forall i :: 0 <= i < |text| ==> IsSpace(text[i])
    ensures Split(text) == [] && Filled(Some(text))
  {
    SkipAllSpaces(text);
  }

  lemma {:induction false} SkipAllSpaces(s: string)
    requires forall i :: 0 <= i < |s| ==> IsSpace(s[i])
    ensures SkipSpaces(s) == []
  {
    if s != [] {
      SkipAllSpaces(s[1..]);
    }
  }
}
