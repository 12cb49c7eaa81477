/**
 The snapshot string written to the state file. The monitor only ever compares
 snapshots for equality, so what matters about `json.dumps(slots, sort_keys=True)`
 is that it is deterministic, injective and never empty (a JSON list starts with
 `[`). This codec has those properties and a decoder: the record list is
 `[`, then per record `{` followed by its two fields in sorted key order (date,
 status), then `]`; a field writes `+c` for each character `c` and ends with `.`.
 */
module Snapshot {
  import opened Slots

  datatype Option<T> = None | Some(value: T)

  /** One field: each character escaped by a `+`, then the terminator `.`. */
  function EncodeText(s: string): string
  {
    if s == [] then "." else ['+', s[0]] + EncodeText(s[1..])
  }

  /** The records after the opening `[`, closed by `]`. */
  function EncodeList(slots: seq<Slot>): string
  {
    if slots == [] then "]"
    else "{" + (EncodeText(slots[0].date) + (EncodeText(slots[0].status) + EncodeList(slots[1..])))
  }

  /** The snapshot of a record list. */
  function Encode(slots: seq<Slot>): string
  {
    "[" + EncodeList(slots)
  }

  /** Reads one field from the front of `t`, returning it and what follows it. */
  function DecodeText(t: string): (r: Option<(string, string)>)
    ensures r.Some? ==> |r.value.1| < |t|
  {
    if t == [] then None
    else if t[0] == '.' then Some(("", t[1..]))
    else if t[0] == '+' && |t| >= 2 then
      var r := DecodeText(t[2..]);
      if r.None? then None else Some(([t[1]] + r.value.0, r.value.1))
    else None
  }

  /** Reads the records after the opening `[`; all of `t` must be consumed. */
  function DecodeList(t: string): Option<seq<Slot>>
    decreases |t|
  {
    if t == "]" then Some([])
    else if t != [] && t[0] == '{' then
      var date := DecodeText(t[1..]);
      if date.None? then None
      else
        var status := DecodeText(date.value.1);
        if status.None? then None
        else
          var rest := DecodeList(status.value.1);
          if rest.None? then None
          else Some([Slot(date.value.0, status.value.0)] + rest.value)
    else None
  }

  /** Reads a whole snapshot; `None` for a string no record list encodes to. */
  function Decode(t: string): Option<seq<Slot>>
  {
    if t != [] && t[0] == '[' then DecodeList(t[1..]) else None
  }

  /** A field is read back whatever follows it. */
  lemma {:induction false} DecodeEncodeText(s: string, rest: string)
    ensures DecodeText(EncodeText(s) + rest) == Some((s, rest))
  {
    if s != [] {
      var t := EncodeText(s) + rest;
      assert t[2..] == EncodeText(s[1..]) + rest;
      DecodeEncodeText(s[1..], rest);
      assert [s[0]] + s[1..] == s;
    }
  }

  /** What a successful field read consumed encodes the field it returned. */
  lemma {:induction false} EncodeDecodeText(t: string)
    requires DecodeText(t).Some?
    ensures EncodeText(DecodeText(t).value.0) + DecodeText(t).value.1 == t
    decreases |t|
  {
    if t[0] == '+' {
      EncodeDecodeText(t[2..]);
      var s := DecodeText(t).value.0;
      assert s[1..] == DecodeText(t[2..]).value.0;
    }
  }

  lemma {:induction false} DecodeEncodeList(slots: seq<Slot>)
    ensures DecodeList(EncodeList(slots)) == Some(slots)
  {
    if slots != [] {
      var x := slots[0];
      var t := EncodeList(slots);
      var tail := EncodeText(x.status) + EncodeList(slots[1..]);
      assert t[1..] == EncodeText(x.date) + tail;
      DecodeEncodeText(x.date, tail);
      DecodeEncodeText(x.status, EncodeList(slots[1..]));
      DecodeEncodeList(slots[1..]);
      assert [Slot(x.date, x.status)] + slots[1..] == slots;
    }
  }

  /** A successful read of a non-empty list is a record read followed by a list read. */
  lemma DecodeListCons(t: string)
    requires DecodeList(t).Some? && t != "]"
    ensures t[0] == '{' && DecodeText(t[1..]).Some?
    ensures DecodeText(DecodeText(t[1..]).value.1).Some?
    ensures DecodeList(DecodeText(DecodeText(t[1..]).value.1).value.1).Some?
    ensures DecodeList(t).value
            == [Slot(DecodeText(t[1..]).value.0, DecodeText(DecodeText(t[1..]).value.1).value.0)]
               + DecodeList(DecodeText(DecodeText(t[1..]).value.1).value.1).value
  {
  }

  lemma {:induction false} EncodeDecodeList(t: string)
    requires DecodeList(t).Some?
    ensures EncodeList(DecodeList(t).value) == t
    decreases |t|
  {
    if t != "]" {
      DecodeListCons(t);
      var date := DecodeText(t[1..]).value;
      var status := DecodeText(date.1).value;
      var rest := DecodeList(status.1).value;
      var xs := DecodeList(t).value;
      assert xs[0] == Slot(date.0, status.0) && xs[1..] == rest;
      EncodeDecodeText(t[1..]);
      EncodeDecodeText(date.1);
      EncodeDecodeList(status.1);
      assert EncodeText(status.0) + EncodeList(rest) == date.1;
      assert EncodeText(date.0) + date.1 == t[1..];
      assert EncodeList(xs) == "{" + t[1..];
      assert t == [t[0]] + t[1..];
    }
  }

  /** Round trip: every snapshot decodes to the records it was made from. */
  lemma DecodeEncode(slots: seq<Slot>)
    ensures Decode(Encode(slots)) == Some(slots)
  {
    assert Encode(slots)[1..] == EncodeList(slots);
    DecodeEncodeList(slots);
  }

  /** The other direction: a string that decodes is the snapshot of what it decodes to. */
  lemma EncodeDecode(t: string)
    requires Decode(t).Some?
    ensures Encode(Decode(t).value) == t
  {
    EncodeDecodeList(t[1..]);
    assert t == [t[0]] + t[1..];
  }

  /** Snapshots are equal exactly when the record lists are (order and all). */
  lemma EncodeInjective(a: seq<Slot>, b: seq<Slot>)
    ensures Encode(a) == Encode(b) <==> a == b
  {
    DecodeEncode(a);
    DecodeEncode(b);
  }

  /** A snapshot is never empty: it starts with `[`, like a JSON list. */
  lemma EncodeNonEmpty(slots: seq<Slot>)
    ensures Encode(slots) != "" && Encode(slots)[0] == '['
  {
  }
}
