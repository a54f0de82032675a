/**
 * The file-persisted loop counter: `LoopCounter.execute` and `ResetCounter.execute` of
 * nodes/Loop_Counter.py. The root LoopCounter.py holds the same two nodes with the same logic.
 * The counter file `loops.json` is modelled by what `json.load` would find in it.
 */
module LoopCounter {
  import opened Common

  /** The single key of the counter record. */
  const CounterKey := "loop_count"

  /** What reading `loops.json` finds. */
  datatype Contents =
    | Missing                           // FileNotFoundError
    | Corrupt                           // json.JSONDecodeError
    | Unreadable                        // any other read error (PermissionError, IsADirectoryError, UnicodeDecodeError)
    | NotAnObject                       // valid JSON that is not an object, so `data.get` raises AttributeError
    | Object(fields: map<string, int>)  // a JSON object with integer members

  /** What the environment does with one attempt to rewrite `loops.json`. */
  datatype WriteOutcome =
    | Written     // `open(..., 'w')` and `json.dump` both succeed
    | OpenFailed  // `open(..., 'w')` raises: the file is untouched
    | DumpFailed  // `open` truncated the file and `json.dump` raised: a proper prefix of the text is left

  /** What `LoopCounter.execute` hands back to the host. */
  datatype CountOutput =
    | Returned(loopCount: int)  // the tuple `(current_value_to_output,)`
    | RaisedReadError           // a read error other than the two the node catches
    | RaisedAttributeError      // `data.get` on JSON that is not an object

  /**
   * The current value read from the file: `data.get('loop_count', 0)`, 0 for a missing or bad file,
   * none when the read raises.
   */
  function ReadValue(c: Contents): Option<int>
  {
    match c
    case Missing => Some(0)
    case Corrupt => Some(0)
    case Unreadable => None
    case NotAnObject => None
    case Object(fields) => Some(if CounterKey in fields then fields[CounterKey] else 0)
  }

  /**
   * The file after trying to write `{"loop_count": value}`. A failed `json.dump` leaves part of
   * `{\n    "loop_count": value\n}`; no proper prefix of that text is valid JSON.
   */
  function Rewritten(c: Contents, value: int, w: WriteOutcome): Contents
  {
    match w
    case Written => Object(map[CounterKey := value])
    case OpenFailed => c
    case DumpFailed => Corrupt
  }

  /** One run of `LoopCounter.execute`: the output and the file afterwards. */
  function CountStep(c: Contents, w: WriteOutcome): (CountOutput, Contents)
  {
    match ReadValue(c)
    case None => (if c.Unreadable? then RaisedReadError else RaisedAttributeError, c)
    case Some(v) => (Returned(v), Rewritten(c, v + 1, w))
  }

  /** Consecutive runs of `LoopCounter.execute`, the i-th write meeting `ws[i]`. */
  function CountRuns(c: Contents, ws: seq<WriteOutcome>): (seq<CountOutput>, Contents)
    decreases |ws|
  {
    if ws == [] then ([], c)
    else
      var (out, c') := CountStep(c, ws[0]);
      var (outs, last) := CountRuns(c', ws[1..]);
      ([out] + outs, last)
  }

  /** The counter file shared by the counter node and the reset node. */
  class CounterFile {
    var contents: Contents

    constructor (initial: Contents)
      ensures contents == initial
    {
      contents := initial;
    }

    /** `LoopCounter.execute`: returns the stored value and persists its successor. */
    method Count(w: WriteOutcome) returns (out: CountOutput)
      modifies this
      ensures (out, contents) == CountStep(old(contents), w)
    {
      if contents.Unreadable? {
        out := RaisedReadError;
        return;
      }
      if contents.NotAnObject? {
        out := RaisedAttributeError;
        return;
      }
      var current: int;
      match contents {
        case Missing => current := 0;
        case Corrupt => current := 0;
        case Object(fields) => current := if CounterKey in fields then fields[CounterKey] else 0;
      }
      var next := current + 1;
      match w {
        case Written => contents := Object(map[CounterKey := next]);
        case OpenFailed =>
        case DumpFailed => contents := Corrupt;
      }
      out := Returned(current);
    }

    /** `ResetCounter.execute`: writes 0 whatever `triggerReset` is; the node's result is empty. */
    method Reset(triggerReset: bool, w: WriteOutcome)
      modifies this
      ensures contents == Rewritten(old(contents), 0, w)
    {
      match w {
        case Written => contents := Object(map[CounterKey := 0]);
        case OpenFailed =>
        case DumpFailed => contents := Corrupt;
      }
    }
  }

  /** Missing file, bad JSON and a missing key all read as 0. */
  lemma DefaultsToZero(c: Contents)
    requires c.Missing? || c.Corrupt? || (c.Object? && CounterKey !in c.fields)
    ensures CountStep(c, Written) == (Returned(0), Object(map[CounterKey := 1]))
  {
  }

  /** The returned value is the one read before the write, whatever the write does. */
  lemma OutputIgnoresWrite(c: Contents, w1: WriteOutcome, w2: WriteOutcome)
    ensures CountStep(c, w1).0 == CountStep(c, w2).0
    ensures ReadValue(c).Some? ==> CountStep(c, w1).0 == Returned(ReadValue(c).value)
  {
  }

  /**
   * The node raises exactly on the read errors it does not catch and on JSON that is not an
   * object, and then it never reaches the write: the file is left as it was.
   */
  lemma RaisesOnlyOnUncaughtErrors(c: Contents, w: WriteOutcome)
    ensures !CountStep(c, w).0.Returned? <==> c.Unreadable? || c.NotAnObject?
    ensures CountStep(c, w).0 == RaisedReadError <==> c.Unreadable?
    ensures !CountStep(c, w).0.Returned? ==> CountStep(c, w).1 == c
  {
  }

  /** A successful write is read back: the next run returns what this one persisted. */
  lemma NextRunSeesSuccessor(c: Contents, w: WriteOutcome)
    requires ReadValue(c).Some?
    ensures CountStep(CountStep(c, Written).1, w).0 == Returned(ReadValue(c).value + 1)
    ensures CountStep(CountStep(c, OpenFailed).1, w).0 == Returned(ReadValue(c).value)
    ensures CountStep(CountStep(c, DumpFailed).1, w).0 == Returned(0)
  {
  }

  /** Reset leaves `{"loop_count": 0}` whatever was there; twice is once; the next run returns 0. */
  lemma ResetProperties(c: Contents, w: WriteOutcome)
    ensures Rewritten(c, 0, Written) == Object(map[CounterKey := 0])
    ensures Rewritten(Rewritten(c, 0, Written), 0, Written) == Rewritten(c, 0, Written)
    ensures CountStep(Rewritten(c, 0, Written), w).0 == Returned(0)
  {
  }

  /** All `n` writes succeed. */
  function AllWritten(n: nat): (ws: seq<WriteOutcome>)
    ensures |ws| == n && forall i :: 0 <= i < n ==> ws[i] == Written
  {
    seq(n, _ => Written)
  }

  /**
   * From a file that reads as `v`, `n` successful runs return `v, v+1, ..., v+n-1` and leave
   * `{"loop_count": v+n}`.
   */
  lemma {:induction false} ConsecutiveRuns(c: Contents, v: int, n: nat)
    requires ReadValue(c) == Some(v)
    ensures |CountRuns(c, AllWritten(n)).0| == n
    ensures forall k :: 0 <= k < n ==> CountRuns(c, AllWritten(n)).0[k] == Returned(v + k)
    ensures n > 0 ==> CountRuns(c, AllWritten(n)).1 == Object(map[CounterKey := v + n])
    decreases n
  {
    if n > 0 {
      var c' := Rewritten(c, v + 1, Written);
      assert AllWritten(n)[1..] == AllWritten(n - 1);
      ConsecutiveRuns(c', v + 1, n - 1);
    }
  }

  /** From a missing file the k-th run (1-based) returns k-1 and leaves the counter at k. */
  lemma RunsFromMissingFile(n: nat)
    ensures |CountRuns(Missing, AllWritten(n)).0| == n
    ensures forall k :: 0 <= k < n ==> CountRuns(Missing, AllWritten(n)).0[k] == Returned(k)
    ensures n > 0 ==> CountRuns(Missing, AllWritten(n)).1 == Object(map[CounterKey := n])
  {
    ConsecutiveRuns(Missing, 0, n);
  }

  /** The documented sequence 0, 1, 2, ... through the node itself, from a missing file. */
  method CountFromMissingFile(n: nat) returns (outs: seq<CountOutput>)
    ensures |outs| == n && forall k :: 0 <= k < n ==> outs[k] == Returned(k)
  {
    var file := new CounterFile(Missing);
    outs := [];
    while |outs| < n
      invariant |outs| <= n
      invariant forall k :: 0 <= k < |outs| ==> outs[k] == Returned(k)
      invariant ReadValue(file.contents) == Some(|outs|)
    {
      var out := file.Count(Written);
      outs := outs + [out];
    }
  }
}
