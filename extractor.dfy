/**
 The slot extractor `parse_slots_from_html`. HTML parsing is not modelled:
 the input is the list of texts of the nodes the day-card selector matched
 (each as `get_text(" ", strip=True)` gives it, possibly empty) and the text
 of the whole page. Tier 1 turns every non-empty card text into one record;
 tier 2, used only when the selector matched nothing, turns the page text
 into a single record with an empty date.
 */
module Extractor {
  import opened Text
  import opened Slots

  /** Positive keywords of the tier-1 test; the first two are the only ones of the fallback test. */
  const HAS_PLACES: string := "Есть места"
  const SIGN_UP: string := "Записаться"
  const FREE_STEM: string := "Свободн"
  /** "No free places": removed from the date label before its suffix "мест нет" is. */
  const NO_FREE_PLACES: string := "Свободных мест нет"

  /** The phrases removed from a card text, in this order, to leave its date label. */
  const MARKERS: seq<string> := [HAS_PLACES, NO_FREE_PLACES, "мест нет", SIGN_UP]

  /** The tier-1 positive test on a card text. */
  predicate IsFreeText(text: string)
  {
    Contains(text, HAS_PLACES) || Contains(text, SIGN_UP) || Contains(text, FREE_STEM)
  }

  /** The fallback positive test on the page text (it does not look for `FREE_STEM`). */
  predicate IsFreePage(page: string)
  {
    Contains(page, HAS_PLACES) || Contains(page, SIGN_UP)
  }

  /** `text` after `date_part = date_part.replace(m, "").strip()` for each `m` of `ms` in turn. */
  function StripMarkers(text: string, ms: seq<string>): string
  {
    if ms == [] then text
    else Strip(RemoveAll(StripMarkers(text, ms[..|ms| - 1]), ms[|ms| - 1]))
  }

  /** The date label of a card text. */
  function DateLabel(text: string): string
  {
    StripMarkers(text, MARKERS)
  }

  /** The record of one non-empty card text. */
  function CardSlot(text: string): Slot
  {
    Slot(DateLabel(text), if IsFreeText(text) then FREE else NO_PLACES)
  }

  /** The card texts that are not empty, in node order. */
  function NonEmptyTexts(nodes: seq<string>): seq<string>
  {
    if nodes == [] then []
    else
      var last := nodes[|nodes| - 1];
      NonEmptyTexts(nodes[..|nodes| - 1]) + (if last == "" then [] else [last])
  }

  /** One record per card text, in the same order. */
  function Cards(texts: seq<string>): (r: seq<Slot>)
    ensures |r| == |texts|
  {
    if texts == [] then [] else Cards(texts[..|texts| - 1]) + [CardSlot(texts[|texts| - 1])]
  }

  /** Record `k` of the cards is the record of text `k`. */
  lemma {:induction false} CardsAt(texts: seq<string>, k: nat)
    requires k < |texts|
    ensures Cards(texts)[k] == CardSlot(texts[k])
  {
    var init := texts[..|texts| - 1];
    if k < |init| {
      CardsAt(init, k);
    }
  }

  /** Adding a card text adds its record at the end. */
  lemma CardsAppend(texts: seq<string>, text: string)
    ensures Cards(texts + [text]) == Cards(texts) + [CardSlot(text)]
  {
    assert (texts + [text])[..|texts|] == texts;
  }

  /** The single record of the fallback tier. */
  function FallbackSlot(page: string): Slot
  {
    Slot("", if IsFreePage(page) then FREE else NO_PLACES)
  }

  /** What `parse_slots_from_html` returns: tier 1 whenever some node matched, else tier 2. */
  function Extract(nodes: seq<string>, page: string): seq<Slot>
  {
    if nodes != [] then Cards(NonEmptyTexts(nodes)) else [FallbackSlot(page)]
  }

  /** The marker loop of `parse_slots_from_html`: the date label of one card text. */
  method RemoveMarkers(text: string) returns (datePart: string)
    ensures datePart == DateLabel(text)
  {
    datePart := text;
    for j := 0 to |MARKERS|
      invariant datePart == StripMarkers(text, MARKERS[..j])
    {
      assert MARKERS[..j + 1][..j] == MARKERS[..j];
      datePart := Strip(RemoveAll(datePart, MARKERS[j]));
    }
    assert MARKERS[..|MARKERS|] == MARKERS;
  }

  /** `parse_slots_from_html`, step by step as `parse_slots_from_html` does it. */
  method ParseSlots(nodes: seq<string>, page: string) returns (slots: seq<Slot>)
    ensures slots == Extract(nodes, page)
  {
    slots := [];
    if nodes != [] {
      for i := 0 to |nodes|
        invariant slots == Cards(NonEmptyTexts(nodes[..i]))
      {
        assert nodes[..i + 1][..i] == nodes[..i];
        var text := nodes[i];
        if text == "" {
          assert NonEmptyTexts(nodes[..i + 1]) == NonEmptyTexts(nodes[..i]);
          continue;
        }
        assert NonEmptyTexts(nodes[..i + 1]) == NonEmptyTexts(nodes[..i]) + [text];
        CardsAppend(NonEmptyTexts(nodes[..i]), text);
        var status := if Contains(text, HAS_PLACES) || Contains(text, SIGN_UP) || Contains(text, FREE_STEM)
                      then FREE else "";
        var datePart := RemoveMarkers(text);
        if status != "" {
          slots := slots + [Slot(datePart, status)];
        } else {
          slots := slots + [Slot(datePart, NO_PLACES)];
        }
      }
      assert nodes[..|nodes|] == nodes;
      return;
    }
    var text := page;
    if Contains(text, HAS_PLACES) || Contains(text, SIGN_UP) {
      slots := slots + [Slot("", FREE)];
    } else {
      slots := slots + [Slot("", NO_PLACES)];
    }
  }

  // ---------------------------------------------------------------------------
  // Properties of the extractor

  /** Tier 1 classifies a card as free exactly when one of the three keywords occurs in it. */
  lemma CardStatus(text: string)
    ensures CardSlot(text).status == FREE <==> IsFreeText(text)
    ensures CardSlot(text).status == NO_PLACES <==> !IsFreeText(text)
  {
  }

  /** No status other than the two constants is ever produced. */
  lemma ExtractStatuses(nodes: seq<string>, page: string)
    ensures forall k :: 0 <= k < |Extract(nodes, page)| ==>
      Extract(nodes, page)[k].status == FREE || Extract(nodes, page)[k].status == NO_PLACES
  {
    if nodes != [] {
      var texts := NonEmptyTexts(nodes);
      forall k | 0 <= k < |texts|
        ensures Cards(texts)[k].status == FREE || Cards(texts)[k].status == NO_PLACES
      {
        CardsAt(texts, k);
      }
    }
  }

  /**
   Extraction never fails: tier 1 yields exactly one record per non-empty node text (so at
   most one per node), record `k` being the record of the `k`-th such text; the fallback
   yields exactly one.
   */
  lemma ExtractLength(nodes: seq<string>, page: string)
    ensures nodes != [] ==> |Extract(nodes, page)| == |NonEmptyTexts(nodes)| <= |nodes|
    ensures nodes != [] ==> forall k :: 0 <= k < |NonEmptyTexts(nodes)| ==>
              Extract(nodes, page)[k] == CardSlot(NonEmptyTexts(nodes)[k])
    ensures nodes == [] ==> |Extract(nodes, page)| == 1
  {
    NonEmptyTextsShape(nodes);
    if nodes != [] {
      forall k | 0 <= k < |NonEmptyTexts(nodes)|
        ensures Extract(nodes, page)[k] == CardSlot(NonEmptyTexts(nodes)[k])
      {
        CardsAt(NonEmptyTexts(nodes), k);
      }
    }
  }

  /** Skipping empty texts preserves order: the texts of a concatenation are concatenated. */
  lemma {:induction false} NonEmptyTextsAppend(a: seq<string>, b: seq<string>)
    ensures NonEmptyTexts(a + b) == NonEmptyTexts(a) + NonEmptyTexts(b)
    decreases |b|
  {
    if b == [] {
      assert a + b == a;
    } else {
      var b' := b[..|b| - 1];
      assert (a + b)[..|a + b| - 1] == a + b';
      assert (a + b)[|a + b| - 1] == b[|b| - 1];
      NonEmptyTextsAppend(a, b');
    }
  }

  /** The kept texts are non-empty texts of the nodes, and there are no more of them than nodes. */
  lemma {:induction false} NonEmptyTextsShape(nodes: seq<string>)
    ensures |NonEmptyTexts(nodes)| <= |nodes|
    ensures forall k :: 0 <= k < |NonEmptyTexts(nodes)| ==>
      NonEmptyTexts(nodes)[k] != "" && NonEmptyTexts(nodes)[k] in nodes
  {
    if nodes != [] {
      var init := nodes[..|nodes| - 1];
      NonEmptyTextsShape(init);
      forall k | 0 <= k < |NonEmptyTexts(init)| ensures NonEmptyTexts(init)[k] in nodes {
        assert NonEmptyTexts(init)[k] in init;
      }
    }
  }

  /** When no card text is empty, no card is skipped. */
  lemma {:induction false} NonEmptyTextsAll(nodes: seq<string>)
    requires forall k :: 0 <= k < |nodes| ==> nodes[k] != ""
    ensures NonEmptyTexts(nodes) == nodes
  {
    if nodes != [] {
      NonEmptyTextsAll(nodes[..|nodes| - 1]);
    }
  }

  /** When every card text is empty, every card is skipped. */
  lemma {:induction false} NonEmptyTextsNone(nodes: seq<string>)
    requires forall k :: 0 <= k < |nodes| ==> nodes[k] == ""
    ensures NonEmptyTexts(nodes) == []
  {
    if nodes != [] {
      NonEmptyTextsNone(nodes[..|nodes| - 1]);
    }
  }

  /** Tier priority: once a node matched, the page text plays no part in the result. */
  lemma Tier1IgnoresPage(nodes: seq<string>, page1: string, page2: string)
    requires nodes != []
    ensures Extract(nodes, page1) == Extract(nodes, page2)
  {
  }

  /** Tier 1 appends one record per further node, in node order, and nothing for an empty text. */
  lemma Tier1Append(nodes: seq<string>, text: string, page: string)
    requires nodes != []
    ensures Extract(nodes + [text], page)
         == Extract(nodes, page) + (if text == "" then [] else [CardSlot(text)])
  {
    var all := nodes + [text];
    assert all[..|all| - 1] == nodes;
    var before := NonEmptyTexts(nodes);
    assert NonEmptyTexts(all) == before + (if text == "" then [] else [text]);
    if text == "" {
      assert before + [] == before;
    } else {
      CardsAppend(before, text);
    }
  }

  /** Tier 1 over cards that all carry text: record `k` is the record of node `k`. */
  lemma Tier1NoEmptyTexts(nodes: seq<string>, page: string)
    requires nodes != []
    requires forall k :: 0 <= k < |nodes| ==> nodes[k] != ""
    ensures |Extract(nodes, page)| == |nodes|
    ensures forall k :: 0 <= k < |nodes| ==>
      Extract(nodes, page)[k].date == DateLabel(nodes[k]) &&
      (Extract(nodes, page)[k].status == FREE <==> IsFreeText(nodes[k]))
  {
    NonEmptyTextsAll(nodes);
    forall k | 0 <= k < |nodes|
      ensures Extract(nodes, page)[k] == CardSlot(nodes[k])
    {
      CardsAt(nodes, k);
    }
  }

  /** Matched nodes that are all empty give no records, and the fallback is still not used. */
  lemma Tier1AllEmpty(nodes: seq<string>, page: string)
    requires nodes != []
    requires forall k :: 0 <= k < |nodes| ==> nodes[k] == ""
    ensures Extract(nodes, page) == []
  {
    NonEmptyTextsNone(nodes);
  }

  /** The fallback: one record with an empty date, free exactly when the page mentions places or sign-up. */
  lemma Fallback(page: string)
    ensures |Extract([], page)| == 1 && Extract([], page)[0].date == ""
    ensures Extract([], page)[0].status == FREE <==> Contains(page, HAS_PLACES) || Contains(page, SIGN_UP)
    ensures Extract([], page)[0].status == NO_PLACES <==> !(Contains(page, HAS_PLACES) || Contains(page, SIGN_UP))
  {
  }

  /** A stripped text contains a pattern only if the original text does. */
  lemma StripKeepsAbsence(s: string, p: string)
    requires !Contains(s, p)
    ensures !Contains(Strip(s), p)
  {
    StripIsInfix(s);
    var i, j :| 0 <= i <= j <= |s| && Strip(s) == s[i..j] && AllSpace(s[..i]) && AllSpace(s[j..]);
    if Contains(Strip(s), p) {
      ContainsInfix(s, i, j, p);
    }
  }

  /** Removing markers that do not occur only strips the text. */
  lemma {:induction false} StripMarkersAbsent(text: string, ms: seq<string>)
    requires ms != []
    requires forall k :: 0 <= k < |ms| ==> !Contains(text, ms[k])
    ensures StripMarkers(text, ms) == Strip(text)
  {
    var init := ms[..|ms| - 1];
    var m := ms[|ms| - 1];
    if init == [] {
      assert StripMarkers(text, init) == text;
      RemoveAllShape(text, m);
    } else {
      StripMarkersAbsent(text, init);
      StripKeepsAbsence(text, m);
      RemoveAllShape(Strip(text), m);
      StripStripped(text);
    }
  }

  /** Removing markers and stripping never lengthens the text; after one marker the text is stripped. */
  lemma {:induction false} StripMarkersShape(text: string, ms: seq<string>)
    ensures |StripMarkers(text, ms)| <= |text|
    ensures ms != [] ==> IsStripped(StripMarkers(text, ms))
  {
    if ms != [] {
      var before := StripMarkers(text, ms[..|ms| - 1]);
      StripMarkersShape(text, ms[..|ms| - 1]);
      RemoveAllShape(before, ms[|ms| - 1]);
      StripShape(RemoveAll(before, ms[|ms| - 1]));
    }
  }

  /** A date label is never longer than its card text and never padded with whitespace. */
  lemma DateLabelShape(text: string)
    ensures |DateLabel(text)| <= |text| && IsStripped(DateLabel(text))
  {
    StripMarkersShape(text, MARKERS);
  }

  /** A card text without any marker keeps its whole (stripped) text as the date. */
  lemma DateLabelNoMarkers(text: string)
    requires forall k :: 0 <= k < |MARKERS| ==> !Contains(text, MARKERS[k])
    ensures DateLabel(text) == Strip(text)
  {
    StripMarkersAbsent(text, MARKERS);
  }

  /** Once the markers up to index `j` have emptied the text, the remaining ones leave it empty. */
  lemma {:induction false} StripMarkersStayEmpty(text: string, ms: seq<string>, j: nat)
    requires j <= |ms| && StripMarkers(text, ms[..j]) == ""
    ensures StripMarkers(text, ms) == ""
    decreases |ms| - j
  {
    if j == |ms| {
      assert ms[..j] == ms;
    } else {
      var pre := ms[..j + 1];
      assert pre[..|pre| - 1] == ms[..j];
      assert StripMarkers(text, pre) == Strip(RemoveAll(StripMarkers(text, ms[..j]), ms[j]));
      assert RemoveAll("", ms[j]) == "";
      assert Strip("") == "";
      StripMarkersStayEmpty(text, ms, j + 1);
    }
  }

  /**
   A card text that is exactly the marker at index `i > 0` has an empty date, provided
   the first marker does not occur in it, it is stripped, and the markers between leave it alone.
   */
  lemma MarkerTextDate(ms: seq<string>, i: nat)
    requires 0 < i < |ms| && StripMarkers(ms[i], ms[..i]) == ms[i]
    ensures StripMarkers(ms[i], ms) == ""
  {
    var t := ms[i];
    var pre := ms[..i + 1];
    assert pre[..|pre| - 1] == ms[..i];
    assert pre[|pre| - 1] == t;
    RemoveAllSelf(t);
    assert StripMarkers(t, pre) == Strip(RemoveAll(StripMarkers(t, ms[..i]), t));
    StripMarkersStayEmpty(t, ms, i + 1);
  }

  /** The first marker leaves a stripped text that does not contain it unchanged. */
  lemma FirstMarkerAbsent(text: string, ms: seq<string>)
    requires ms != [] && !Contains(text, ms[0]) && IsStripped(text)
    ensures StripMarkers(text, ms[..1]) == text
  {
    var first := ms[..1];
    assert first[..0] == [] && first[0] == ms[0];
    RemoveAllShape(text, ms[0]);
    StripStripped(text);
  }

  /** "Свободных мест нет" lacks the letter "Е" that "Есть места" starts with. */
  lemma NoFreePlacesLacksHasPlaces(t: string)
    requires t == NO_FREE_PLACES
    ensures !Contains(t, HAS_PLACES)
  {
    assert 'Е' !in t;
    MissingFirstChar(t, HAS_PLACES);
  }

  /** "Свободных мест нет" has no whitespace at its ends. */
  lemma NoFreePlacesStripped(t: string)
    requires t == NO_FREE_PLACES
    ensures IsStripped(t)
  {
    assert t[0] == 'С' && t[|t| - 1] == 'т';
  }

  /**
   The kept quirk of the positive test: every card mentioning "Свободных мест нет"
   (no free places) contains "Свободн" and is therefore classified free.
   */
  lemma NoFreePlacesCardIsFree(text: string)
    requires Contains(text, NO_FREE_PLACES)
    ensures CardSlot(text).status == FREE
  {
    assert NO_FREE_PLACES[..|FREE_STEM|] == FREE_STEM;
    ContainsPrefix(text, NO_FREE_PLACES, FREE_STEM);
  }

  /**
   A card text that is exactly the second marker is emptied by it, provided the first
   marker does not occur in it and it is stripped.
   */
  lemma SecondMarkerDate(text: string, ms: seq<string>)
    requires |ms| >= 2 && ms[1] == text && !Contains(text, ms[0]) && IsStripped(text)
    ensures StripMarkers(text, ms) == ""
  {
    FirstMarkerAbsent(text, ms);
    MarkerTextDate(ms, 1);
  }

  /** A card reading exactly "Свободных мест нет" is left with an empty date label. */
  lemma NoFreePlacesCardDate(text: string)
    requires text == NO_FREE_PLACES
    ensures DateLabel(text) == ""
  {
    var ms := MARKERS;
    assert |ms| == 4 && ms[0] == HAS_PLACES && ms[1] == text;
    NoFreePlacesLacksHasPlaces(text);
    NoFreePlacesStripped(text);
    SecondMarkerDate(text, ms);
  }

  /** The kept quirk of the fallback test: a page saying only "Свободно" is not free. */
  lemma FallbackIgnoresFreeStem()
    ensures Extract([], FREE) == [Slot("", NO_PLACES)]
  {
    MissingFirstChar(FREE, HAS_PLACES);
    MissingFirstChar(FREE, SIGN_UP);
  }
}
