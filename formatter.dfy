/**
 `format_slots`: the body of the Telegram message, one `✅ <b>date</b>` line per
 free record, or a fixed sentence when there is none.
 */
module Formatter {
  import opened Text
  import opened Slots

  /** The sentence returned when nothing is free. */
  const NO_FREE_DATES: string := "Свободных дат нет."
  /** What every rendered line starts with. */
  const LINE_OPEN: string := "✅ <b>"
  /** What every rendered line ends with. */
  const LINE_CLOSE: string := "</b>"

  /** `(s.get("date") or "").strip() or "Свободно"`. */
  function Label(s: Slot): string
  {
    var d := Strip(s.date);
    if d == "" then FREE else d
  }

  /** `f"✅ <b>{d}</b>"`. */
  function Line(s: Slot): string
  {
    LINE_OPEN + Label(s) + LINE_CLOSE
  }

  /** One line per record, in order. */
  function Lines(slots: seq<Slot>): (r: seq<string>)
    ensures |r| == |slots|
  {
    if slots == [] then [] else Lines(slots[..|slots| - 1]) + [Line(slots[|slots| - 1])]
  }

  /** Python's `"\n".join(lines)`. */
  function JoinLines(lines: seq<string>): string
  {
    if lines == [] then ""
    else if |lines| == 1 then lines[0]
    else lines[0] + "\n" + JoinLines(lines[1..])
  }

  /** `format_slots(slots, only_available=True)`. */
  function Format(slots: seq<Slot>): string
  {
    if slots == [] then NO_FREE_DATES
    else
      var filtered := FreeSlots(slots);
      if filtered == [] then NO_FREE_DATES else JoinLines(Lines(filtered))
  }

  /** The formatter as written: filter, build the lines in a loop, join them. */
  method FormatSlots(slots: seq<Slot>) returns (text: string)
    ensures text == Format(slots)
  {
    if |slots| == 0 {
      return NO_FREE_DATES;
    }
    var filtered := FreeSlots(slots);
    if |filtered| == 0 {
      return NO_FREE_DATES;
    }
    var lines: seq<string> := [];
    for i := 0 to |filtered|
      invariant lines == Lines(filtered[..i])
    {
      var d := Strip(filtered[i].date);
      if d == "" {
        d := FREE;
      }
      assert filtered[..i + 1][..i] == filtered[..i];
      lines := lines + [LINE_OPEN + d + LINE_CLOSE];
    }
    assert filtered[..|filtered|] == filtered;
    text := JoinLines(lines);
  }

  /** The `k`-th line renders the `k`-th record. */
  lemma {:induction false} LinesAt(slots: seq<Slot>, k: nat)
    requires k < |slots|
    ensures Lines(slots)[k] == Line(slots[k])
  {
    if k < |slots| - 1 {
      LinesAt(slots[..|slots| - 1], k);
    }
  }

  /** Rendering commutes with concatenation. */
  lemma {:induction false} LinesAppend(a: seq<Slot>, b: seq<Slot>)
    ensures Lines(a + b) == Lines(a) + Lines(b)
  {
    if b == [] {
      assert a + b == a;
    } else {
      var b' := b[..|b| - 1];
      assert (a + b)[..|a + b| - 1] == a + b';
      LinesAppend(a, b');
    }
  }

  /** A non-empty join begins with its first line. */
  lemma {:induction false} JoinLinesStart(lines: seq<string>)
    requires lines != []
    ensures lines[0] <= JoinLines(lines)
  {
  }

  /** Joining two non-empty blocks puts exactly one newline between them. */
  lemma {:induction false} JoinLinesAppend(x: seq<string>, y: seq<string>)
    requires x != [] && y != []
    ensures JoinLines(x + y) == JoinLines(x) + "\n" + JoinLines(y)
  {
    if |x| == 1 {
      assert (x + y)[1..] == y;
    } else {
      assert (x + y)[1..] == x[1..] + y;
      JoinLinesAppend(x[1..], y);
    }
  }

  /** "Свободно" is a non-empty stripped string. */
  lemma FreeLabelText(t: string)
    requires t == FREE
    ensures t != "" && IsStripped(t)
  {
    assert t[0] == 'С' && t[|t| - 1] == 'о';
  }

  /**
   No line has an empty label: the label is the stripped date when that is not
   empty, and the substitute "Свободно" when it is; either way it has no whitespace at its ends.
   */
  lemma LabelShape(s: Slot)
    ensures Label(s) != "" && IsStripped(Label(s))
    ensures Strip(s.date) != "" ==> Label(s) == Strip(s.date)
    ensures AllSpace(s.date) <==> Label(s) == FREE && Strip(s.date) == ""
  {
    StripShape(s.date);
    StripEmptyIff(s.date);
    FreeLabelText(FREE);
  }

  /** A record whose date reads "Свободно" renders the same line as one whose date is blank. */
  lemma FreeDateLooksBlank(s: Slot, t: Slot)
    requires s.date == FREE && AllSpace(t.date)
    ensures Line(s) == Line(t)
  {
    FreeLabelText(s.date);
    StrippedIsFixed(s.date);
    StripEmptyIff(t.date);
  }

  /** The sentence and a rendered line differ in their first character. */
  lemma SentinelIsNoLine(t: string, line: string)
    requires t == NO_FREE_DATES && LINE_OPEN <= line
    ensures t != line
  {
    assert t[0] == 'С';
    assert line[0] == LINE_OPEN[0] == '✅';
  }

  /**
   The sentinel: the output is "Свободных дат нет." exactly when no record is free
   (both for the empty list and for a list without free records).
   */
  lemma FormatSentinelIff(slots: seq<Slot>)
    ensures Format(slots) == NO_FREE_DATES <==> !HasFree(slots)
  {
    HasFreeIff(slots);
    if HasFree(slots) {
      var f := FreeSlots(slots);
      LinesAt(f, 0);
      JoinLinesStart(Lines(f));
      assert LINE_OPEN <= Lines(f)[0];
      SentinelIsNoLine(NO_FREE_DATES, JoinLines(Lines(f)));
    }
  }

  /**
   Otherwise the output is the newline-join of one line per free record, in input
   order: the `k`-th free record renders as the `k`-th line.
   */
  lemma FormatLines(slots: seq<Slot>)
    requires HasFree(slots)
    ensures Format(slots) == JoinLines(Lines(FreeSlots(slots)))
    ensures |Lines(FreeSlots(slots))| == |FreeSlots(slots)| > 0
    ensures forall k :: 0 <= k < |FreeSlots(slots)| ==>
              Lines(FreeSlots(slots))[k] == LINE_OPEN + Label(FreeSlots(slots)[k]) + LINE_CLOSE
  {
    HasFreeIff(slots);
    forall k | 0 <= k < |FreeSlots(slots)|
      ensures Lines(FreeSlots(slots))[k] == LINE_OPEN + Label(FreeSlots(slots)[k]) + LINE_CLOSE
    {
      LinesAt(FreeSlots(slots), k);
    }
  }

  /** A single record renders as its line when it is free and as the sentence otherwise. */
  lemma FormatSingle(s: Slot)
    ensures Format([s]) == if s.status == FREE then Line(s) else NO_FREE_DATES
  {
    assert [s][1..] == [];
  }

  /**
   The output of a concatenation is assembled from the parts' outputs: a part without
   free records contributes nothing, and two parts with free records are joined by a newline.
   */
  lemma FormatAppend(a: seq<Slot>, b: seq<Slot>)
    ensures !HasFree(b) ==> Format(a + b) == Format(a)
    ensures !HasFree(a) ==> Format(a + b) == Format(b)
    ensures HasFree(a) && HasFree(b) ==> Format(a + b) == Format(a) + "\n" + Format(b)
  {
    FreeSlotsAppend(a, b);
    HasFreeIff(a);
    HasFreeIff(b);
    HasFreeIff(a + b);
    var fa, fb := FreeSlots(a), FreeSlots(b);
    if fb == [] {
      assert fa + fb == fa;
    }
    if fa == [] {
      assert fa + fb == fb;
    }
    if fa != [] && fb != [] {
      LinesAppend(fa, fb);
      JoinLinesAppend(Lines(fa), Lines(fb));
    }
  }
}
