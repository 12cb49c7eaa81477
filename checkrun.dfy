/**
 One monitoring pass (`one_check_run`) after the page has been fetched: extract the
 records, compare their snapshot with the stored one, alert and save on a change.
 The state file is a single string slot (`""` when the file is missing) and every
 Telegram message sent is appended to a log.
 */
module CheckRun {
  import opened Slots
  import opened Extractor
  import opened Formatter
  import opened Snapshot

  /** The `TARGET_URL` default, linked from every alert. */
  const DEFAULT_TARGET_URL: string := "https://f-okno.ru/base/moscovskaya_oblast/sizo11noginsk"

  /** The environment settings one pass reads. */
  datatype Config = Config(targetUrl: string, onlyNotifyWhenFree: bool)

  /** `ONLY_NOTIFY_WHEN_FREE` defaults to on. */
  const DEFAULT_CONFIG: Config := Config(DEFAULT_TARGET_URL, true)

  /** The alert text before the timestamp. */
  const ALERT_HEAD: string := "🚨 Появились свободные слоты в СИЗО-11! ["
  /** Between the timestamp and the formatted records. */
  const ALERT_GAP: string := "]\n\n"
  /** Between the formatted records and the link target. */
  const ALERT_LINK: string := "\n\nЗаписаться тут: <a href='"
  /** After the link target. */
  const ALERT_TAIL: string := "'>страница записи</a>"

  /** The alert for records `slots` observed at Moscow time `ts`. */
  function Message(config: Config, ts: string, slots: seq<Slot>): string
  {
    ALERT_HEAD + ts + ALERT_GAP + Format(slots) + ALERT_LINK + config.targetUrl + ALERT_TAIL
  }

  /** `has_free or not ONLY_NOTIFY_WHEN_FREE`: whether a changed snapshot is announced. */
  predicate ShouldNotify(config: Config, slots: seq<Slot>)
  {
    HasFree(slots) || !config.onlyNotifyWhenFree
  }

  /** What persists between passes: the state file and the messages sent so far. */
  datatype State = State(stored: string, sent: seq<string>)

  /** Before the first pass: no state file, nothing sent. */
  const INITIAL: State := State("", [])

  /** The effect of one pass on the state, for the records the pass extracted. */
  function Step(st: State, config: Config, slots: seq<Slot>, ts: string): State
  {
    var snapshot := Encode(slots);
    if snapshot == st.stored then st
    else if ShouldNotify(config, slots) then State(snapshot, st.sent + [Message(config, ts, slots)])
    else State(snapshot, st.sent)
  }

  /** The monitor's persistent state, changed in place by each pass. */
  class Monitor {
    /** The contents of the state file; `""` when it does not exist. */
    var stored: string
    /** Every message handed to Telegram, oldest first. */
    var sent: seq<string>

    /** A fresh deployment: no state file, nothing sent. */
    constructor()
      ensures stored == "" && sent == [] && Current() == INITIAL
      ensures Valid()
    {
      stored := "";
      sent := [];
    }

    /** The state as a value. */
    function Current(): State
      reads this
    {
      State(stored, sent)
    }

    /**
     What every pass leaves in the state file: nothing (a missing file) or a snapshot this
     monitor could have written. A fresh monitor has it, and every pass establishes it
     whatever the file held before, so `Run` needs no precondition. `SaveSnapshot` accepts
     any string, as `save_snapshot` does, so this is not an invariant of the class.
     */
    ghost predicate Valid()
      reads this
    {
      stored == "" || Decode(stored).Some?
    }

    /** `load_last_snapshot`: the file's contents, `""` when it is missing. */
    method LoadLastSnapshot() returns (s: string)
      ensures s == stored
    {
      s := stored;
    }

    /** `save_snapshot`: overwrite the state file. */
    method SaveSnapshot(s: string)
      modifies this
      ensures stored == s && sent == old(sent)
    {
      stored := s;
    }

    /** `send_tg`: hand one message to Telegram. */
    method SendTg(text: string)
      modifies this
      ensures sent == old(sent) + [text] && stored == old(stored)
    {
      sent := sent + [text];
    }

    /**
     One pass over the matched day-node texts `nodes` and the page text `page`,
     at Moscow time `ts`. Afterwards the state file always holds a decodable snapshot.
     */
    method Run(config: Config, nodes: seq<string>, page: string, ts: string)
      modifies this
      ensures Current() == Step(old(Current()), config, Extract(nodes, page), ts)
      ensures Valid()
    {
      var slots := ParseSlots(nodes, page);
      var hasFree := HasFree(slots);
      var snapshot := Encode(slots);
      var last := LoadLastSnapshot();
      if snapshot != last {
        if hasFree || !config.onlyNotifyWhenFree {
          var body := FormatSlots(slots);
          var text := ALERT_HEAD + ts + ALERT_GAP + body + ALERT_LINK + config.targetUrl + ALERT_TAIL;
          SendTg(text);
        }
        SaveSnapshot(snapshot);
      }
      DecodeEncode(slots);
    }
  }

  /**
   The decision rule of one pass: the stored snapshot is the current one afterwards; the
   old messages are kept; one message (the alert for these records) is added exactly when
   the snapshot changed and the records are to be announced, and none otherwise.
   */
  lemma StepDecision(st: State, config: Config, slots: seq<Slot>, ts: string)
    ensures Step(st, config, slots, ts).stored == Encode(slots)
    ensures st.sent <= Step(st, config, slots, ts).sent
    ensures |Step(st, config, slots, ts).sent| <= |st.sent| + 1
    ensures |Step(st, config, slots, ts).sent| == |st.sent| + 1
            <==> Encode(slots) != st.stored && ShouldNotify(config, slots)
    ensures |Step(st, config, slots, ts).sent| == |st.sent| + 1
            ==> Step(st, config, slots, ts).sent[|st.sent|] == Message(config, ts, slots)
  {
  }

  /** After any pass the state file decodes to exactly the records of that pass. */
  lemma StepStoresDecodable(st: State, config: Config, slots: seq<Slot>, ts: string)
    ensures Decode(Step(st, config, slots, ts).stored) == Some(slots)
  {
    DecodeEncode(slots);
  }

  /** An unchanged snapshot leaves both the state file and the message log alone. */
  lemma StepUnchanged(st: State, config: Config, slots: seq<Slot>, ts: string)
    requires Encode(slots) == st.stored
    ensures Step(st, config, slots, ts) == st
  {
  }

  /**
   A missing state file differs from every snapshot, so the first pass always saves,
   and it alerts exactly when the records are to be announced.
   */
  lemma FirstRunChanged(sent: seq<string>, config: Config, slots: seq<Slot>, ts: string)
    ensures Step(State("", sent), config, slots, ts).stored != ""
    ensures Step(State("", sent), config, slots, ts).sent
            == if ShouldNotify(config, slots) then sent + [Message(config, ts, slots)] else sent
  {
    EncodeNonEmpty(slots);
  }

  /**
   Out of the box (no state file, default settings) the first pass saves its snapshot and
   alerts exactly when some record is free.
   */
  lemma FirstRunDefault(slots: seq<Slot>, ts: string)
    ensures Step(INITIAL, DEFAULT_CONFIG, slots, ts).stored == Encode(slots)
    ensures Step(INITIAL, DEFAULT_CONFIG, slots, ts).sent
            == if HasFree(slots) then [Message(DEFAULT_CONFIG, ts, slots)] else []
  {
    FirstRunChanged([], DEFAULT_CONFIG, slots, ts);
  }

  /**
   No repeated alert: a second pass over the same records changes nothing, whatever
   its timestamp, so two such passes send at most one message.
   */
  lemma NoRepeat(st: State, config: Config, slots: seq<Slot>, ts1: string, ts2: string)
    ensures Step(Step(st, config, slots, ts1), config, slots, ts2) == Step(st, config, slots, ts1)
    ensures |Step(Step(st, config, slots, ts1), config, slots, ts2).sent| <= |st.sent| + 1
  {
    StepDecision(st, config, slots, ts1);
  }

  /** After a pass over `a`, a pass over `b` saves exactly when `b` differs from `a`. */
  lemma ChangeDetection(st: State, config: Config, a: seq<Slot>, b: seq<Slot>, ts1: string, ts2: string)
    ensures var st1 := Step(st, config, a, ts1);
            Step(st1, config, b, ts2).stored != st1.stored <==> a != b
  {
    EncodeInjective(a, b);
  }

  /** With the filter on, a pass that finds nothing free never sends. */
  lemma Suppression(st: State, config: Config, slots: seq<Slot>, ts: string)
    requires config.onlyNotifyWhenFree && !HasFree(slots)
    ensures Step(st, config, slots, ts).sent == st.sent
  {
  }

  /**
   With the filter on, every alert lists free dates: its body is never the
   "Свободных дат нет." sentence.
   */
  lemma AlertListsFreeDates(st: State, config: Config, slots: seq<Slot>, ts: string)
    ensures config.onlyNotifyWhenFree && |Step(st, config, slots, ts).sent| > |st.sent|
            ==> HasFree(slots) && Format(slots) != NO_FREE_DATES
  {
    FormatSentinelIff(slots);
  }

  /** An alert opens with the header, carries the formatted records after the timestamp, and ends with the link. */
  lemma MessageShape(config: Config, ts: string, slots: seq<Slot>)
    ensures ALERT_HEAD <= Message(config, ts, slots)
    ensures var m := Message(config, ts, slots);
            var i := |ALERT_HEAD| + |ts| + |ALERT_GAP|;
            i + |Format(slots)| <= |m| && m[i..i + |Format(slots)|] == Format(slots)
    ensures var m := Message(config, ts, slots);
            var tail := config.targetUrl + ALERT_TAIL;
            |tail| <= |m| && m[|m| - |tail|..] == tail
  {
    var m := Message(config, ts, slots);
    var pre := ALERT_HEAD + ts + ALERT_GAP;
    var body := Format(slots);
    var tail := config.targetUrl + ALERT_TAIL;
    assert m == pre + body + ALERT_LINK + tail;
    assert m[..|ALERT_HEAD|] == ALERT_HEAD;
    assert m[|pre|..|pre| + |body|] == body;
    assert m[|m| - |tail|..] == tail;
  }

  /** One observation: the records a pass extracted and its timestamp. */
  datatype Observation = Observation(slots: seq<Slot>, ts: string)

  /** The state after passes over `obs`, in order. */
  function Replay(st: State, config: Config, obs: seq<Observation>): State
    decreases |obs|
  {
    if obs == [] then st else Replay(Step(st, config, obs[0].slots, obs[0].ts), config, obs[1..])
  }

  /** How many of the passes over `obs` see a snapshot different from the one before it. */
  function Changes(stored: string, obs: seq<Observation>): nat
    decreases |obs|
  {
    if obs == [] then 0
    else
      var snapshot := Encode(obs[0].slots);
      (if snapshot != stored then 1 else 0) + Changes(snapshot, obs[1..])
  }

  /**
   Over any sequence of passes the message log only grows, by at most one alert per
   change of snapshot.
   */
  lemma {:induction false} AlertsAtMostChanges(st: State, config: Config, obs: seq<Observation>)
    ensures st.sent <= Replay(st, config, obs).sent
    ensures |Replay(st, config, obs).sent| <= |st.sent| + Changes(st.stored, obs)
    decreases |obs|
  {
    if obs != [] {
      var st1 := Step(st, config, obs[0].slots, obs[0].ts);
      StepDecision(st, config, obs[0].slots, obs[0].ts);
      AlertsAtMostChanges(st1, config, obs[1..]);
    }
  }

  /** Passes that all see the same records change the snapshot at most once. */
  lemma {:induction false} SameRecordsChangeOnce(stored: string, obs: seq<Observation>, slots: seq<Slot>)
    requires forall k :: 0 <= k < |obs| ==> obs[k].slots == slots
    ensures Changes(stored, obs) <= 1
    ensures stored == Encode(slots) ==> Changes(stored, obs) == 0
    decreases |obs|
  {
    if obs != [] {
      assert obs[0].slots == slots;
      forall k | 0 <= k < |obs[1..]| ensures obs[1..][k].slots == slots {
        assert obs[1..][k] == obs[k + 1];
      }
      SameRecordsChangeOnce(Encode(slots), obs[1..], slots);
    }
  }

  /** However often the monitor runs while the page stays the same, it alerts at most once. */
  lemma AlertOnceWhilePageUnchanged(st: State, config: Config, obs: seq<Observation>, slots: seq<Slot>)
    requires forall k :: 0 <= k < |obs| ==> obs[k].slots == slots
    ensures |Replay(st, config, obs).sent| <= |st.sent| + 1
  {
    AlertsAtMostChanges(st, config, obs);
    SameRecordsChangeOnce(st.stored, obs, slots);
  }
}
