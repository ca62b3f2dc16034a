/**
 * Choosing the stored messages a `/s` command comments on (main.ts:146-244):
 * Mode A scans backwards from the command for the nearest forwarded text,
 * Mode B scans forwards from a replied-to message over a window that grows past
 * stored messages without text. Then the selected texts are collapsed and, in
 * a batch, truncated, and the replies are concatenated.
 */
module Selection {
  import opened Wrappers
  import opened JsStrings
  import opened Helpers
  import opened Reply

  type Log = map<int, StoredMessage>

  function Lookup(log: Log, id: int): Option<StoredMessage>
  {
    if id in log then Some(log[id]) else None
  }

  // ----- Mode A: backwards from the command -----

  /** The loop counter runs `i = 1 .. 999`; step `j` is iteration `i = j + 1`. */
  const Steps: nat := 999

  /**
   * The id whose entry step `j` inspects. The fetch lags one iteration behind
   * the counter, so `n - 1` is inspected at steps 0 and 1.
   */
  function InspectedId(n: int, j: nat): int
  {
    if j == 0 then n - 1 else n - j
  }

  /** The absent-entry counter at the start of step `j`: absent inspections since the last stored one. */
  function MissRun(log: Log, n: int, j: nat): (r: nat)
    ensures r <= j
  {
    if j == 0 then 0 else if InspectedId(n, j - 1) in log then 0 else MissRun(log, n, j - 1) + 1
  }

  /** Step `j` inspects an eligible entry. */
  predicate HitAt(log: Log, n: int, j: nat)
  {
    InspectedId(n, j) in log && Eligible(log[InspectedId(n, j)])
  }

  /** How the scan ends: `break` at a step, give-up, or the counter running out. */
  datatype Stop = Hit(step: nat) | GaveUp | Exhausted

  /** How the scan ends when it reaches step `j`. */
  function ScanFrom(log: Log, n: int, j: nat): (r: Stop)
    ensures r.Hit? ==> j <= r.step < Steps && HitAt(log, n, r.step)
                       && MissRun(log, n, r.step) <= 2
    decreases Steps - j
  {
    if j >= Steps then Exhausted
    else if MissRun(log, n, j) > 2 then GaveUp
    else if HitAt(log, n, j) then Hit(j)
    else ScanFrom(log, n, j + 1)
  }

  /** The outcome of Mode A: a source message, one of the two apologies, or a `TypeError` on `undefined`. */
  datatype ModeAOutcome = Candidate(message: StoredMessage) | NoAnswerSilly | NoAnswerDummy | Crash

  /**
   * Mode A. After a `break` the inspected entry is the source; after give-up
   * the "silly" apology; when the counter runs out, the loop variable holds the
   * entry of `n - 999`, never inspected: used if it has text (forwarded or
   * not), the "dummy" apology if it has none, a crash if it is absent.
   */
  function ModeA(log: Log, n: int): (r: ModeAOutcome)
    ensures r.Candidate? ==> Truthy(r.message.text)
  {
    match ScanFrom(log, n, 0)
    case Hit(j) => Candidate(log[InspectedId(n, j)])
    case GaveUp => NoAnswerSilly
    case Exhausted =>
      match Lookup(log, n - Steps)
      case None => Crash
      case Some(last) => if Truthy(last.text) then Candidate(last) else NoAnswerDummy
  }

  /** The Mode A loop as the handler runs it, with `previousMessage` and `noMessageCount`. */
  method SelectPrevious(log: Log, n: int) returns (outcome: ModeAOutcome)
    ensures outcome == ModeA(log, n)
  {
    var previous := Lookup(log, n - 1);
    var noMessageCount := 0;
    for i := 1 to 1000
      invariant previous == Lookup(log, InspectedId(n, i - 1))
      invariant noMessageCount == MissRun(log, n, i - 1)
      invariant ScanFrom(log, n, 0) == ScanFrom(log, n, i - 1)
    {
      if noMessageCount > 2 {
        return NoAnswerSilly;
      }
      if previous.None? {
        previous := Lookup(log, n - i);
        noMessageCount := noMessageCount + 1;
        continue;
      }
      noMessageCount := 0;
      if !Truthy(previous.value.text) {
        previous := Lookup(log, n - i);
        continue;
      }
      if !previous.value.forward {
        previous := Lookup(log, n - i);
        continue;
      }
      break;
    }
    if previous.None? {
      return Crash;
    }
    if !Truthy(previous.value.text) {
      return NoAnswerDummy;
    }
    return Candidate(previous.value);
  }

  /** The steps from `j` up to where the scan hits inspect nothing eligible. */
  lemma {:induction false} HitIsFirst(log: Log, n: int, j: nat, k: nat)
    requires ScanFrom(log, n, j).Hit? && j <= k < ScanFrom(log, n, j).step
    ensures !HitAt(log, n, k)
    decreases Steps - j
  {
    if k > j {
      HitIsFirst(log, n, j + 1, k);
    }
  }

  /**
   * After a `break`, the source is inspected at most 998 ids below the command,
   * has text and was forwarded, and no id between it and the command holds an
   * eligible message.
   */
  lemma ModeANearest(log: Log, n: int)
    requires ScanFrom(log, n, 0).Hit?
    ensures var id := InspectedId(n, ScanFrom(log, n, 0).step);
            && n - 998 <= id < n && id in log && Eligible(log[id])
            && ModeA(log, n) == Candidate(log[id])
            && forall k :: id < k < n && k in log ==> !Eligible(log[k])
  {
    var j := ScanFrom(log, n, 0).step;
    var id := InspectedId(n, j);
    forall k | id < k < n && k in log ensures !Eligible(log[k]) {
      HitIsFirst(log, n, 0, n - k);
    }
  }

  /** Three consecutive absent inspections end at step `j`. */
  predicate ThreeMisses(log: Log, n: int, j: nat)
  {
    3 <= j && InspectedId(n, j - 3) !in log && InspectedId(n, j - 2) !in log && InspectedId(n, j - 1) !in log
  }

  lemma {:induction false} MissRunCounts(log: Log, n: int, j: nat)
    ensures MissRun(log, n, j) >= 3 <==> ThreeMisses(log, n, j)
  {
    if j >= 3 {
      assert MissRun(log, n, j - 2) >= 0;
    }
  }

  lemma {:induction false} GiveUpFound(log: Log, n: int, j: nat) returns (g: nat)
    requires ScanFrom(log, n, j) == GaveUp
    ensures j <= g < Steps && ThreeMisses(log, n, g)
    ensures forall k :: j <= k < g ==> !HitAt(log, n, k)
    decreases Steps - j
  {
    if MissRun(log, n, j) > 2 {
      MissRunCounts(log, n, j);
      g := j;
    } else {
      g := GiveUpFound(log, n, j + 1);
    }
  }

  lemma {:induction false} GiveUpReached(log: Log, n: int, j: nat, g: nat)
    requires j <= g < Steps && ThreeMisses(log, n, g)
    requires forall k :: j <= k < g ==> !HitAt(log, n, k)
    ensures ScanFrom(log, n, j) == GaveUp
    decreases g - j
  {
    if MissRun(log, n, j) <= 2 {
      if j == g {
        MissRunCounts(log, n, g);
      } else {
        GiveUpReached(log, n, j + 1, g);
      }
    }
  }

  /**
   * Mode A gives up exactly when three consecutive inspections find no entry
   * before any inspection finds an eligible one, within the step budget.
   */
  lemma ModeAGiveUp(log: Log, n: int)
    ensures ModeA(log, n) == NoAnswerSilly <==>
            exists g :: 0 <= g < Steps && ThreeMisses(log, n, g) && forall k :: 0 <= k < g ==> !HitAt(log, n, k)
  {
    if ScanFrom(log, n, 0) == GaveUp {
      var g := GiveUpFound(log, n, 0);
    }
    if exists g :: 0 <= g < Steps && ThreeMisses(log, n, g) && forall k :: 0 <= k < g ==> !HitAt(log, n, k) {
      var g :| 0 <= g < Steps && ThreeMisses(log, n, g) && forall k :: 0 <= k < g ==> !HitAt(log, n, k);
      GiveUpReached(log, n, 0, g);
    }
  }

  /** Because `n - 1` is inspected twice, no entry at `n - 1` and `n - 2` already makes Mode A give up. */
  lemma ModeAGiveUpAfterTwoIds(log: Log, n: int)
    requires n - 1 !in log && n - 2 !in log
    ensures ModeA(log, n) == NoAnswerSilly
  {
    assert ThreeMisses(log, n, 3);
    GiveUpReached(log, n, 0, 3);
  }

  /** Two absent inspections are tolerated: with `n - 1` absent, an eligible `n - 2` is still chosen. */
  lemma ModeAAfterOneMissingId(log: Log, n: int)
    requires n - 1 !in log && n - 2 in log && Eligible(log[n - 2])
    ensures ModeA(log, n) == Candidate(log[n - 2])
  {
    assert MissRun(log, n, 2) == 2;
    assert ScanFrom(log, n, 2) == Hit(2);
  }

  /** A gap of two absent ids below a stored entry is crossed. */
  lemma ModeAGapOfTwo(log: Log, n: int)
    requires n - 1 in log && !Eligible(log[n - 1])
    requires n - 2 !in log && n - 3 !in log && n - 4 in log && Eligible(log[n - 4])
    ensures ModeA(log, n) == Candidate(log[n - 4])
  {
    assert MissRun(log, n, 2) == 0;
    assert MissRun(log, n, 3) == 1;
    assert MissRun(log, n, 4) == 2;
    assert ScanFrom(log, n, 4) == Hit(4);
    assert ScanFrom(log, n, 0) == ScanFrom(log, n, 4);
  }

  /** A gap of three absent ids below a stored entry is not: Mode A gives up. */
  lemma ModeAGapOfThree(log: Log, n: int)
    requires n - 1 in log && !Eligible(log[n - 1])
    requires n - 2 !in log && n - 3 !in log && n - 4 !in log
    ensures ModeA(log, n) == NoAnswerSilly
  {
    assert ThreeMisses(log, n, 5);
    GiveUpReached(log, n, 0, 5);
  }

  /** From step `j` on no step hits and none ends three absent inspections: the scan runs out. */
  lemma {:induction false} ScanRunsOut(log: Log, n: int, j: nat)
    requires j <= Steps
    requires forall k :: j <= k < Steps ==> !HitAt(log, n, k) && !ThreeMisses(log, n, k)
    ensures ScanFrom(log, n, j) == Exhausted
    decreases Steps - j
  {
    if j < Steps {
      MissRunCounts(log, n, j);
      ScanRunsOut(log, n, j + 1);
    }
  }

  /** And only then: a scan that runs out met no hit and no three absent inspections. */
  lemma {:induction false} RunOutMeans(log: Log, n: int, j: nat)
    requires j <= Steps && ScanFrom(log, n, j) == Exhausted
    ensures forall k :: j <= k < Steps ==> !HitAt(log, n, k) && !ThreeMisses(log, n, k)
    decreases Steps - j
  {
    if j < Steps {
      MissRunCounts(log, n, j);
      RunOutMeans(log, n, j + 1);
    }
  }

  /** The loop runs out exactly when no step hits and no step follows three absent inspections. */
  lemma ModeARunsOut(log: Log, n: int)
    ensures ScanFrom(log, n, 0) == Exhausted <==>
            forall j :: 0 <= j < Steps ==> !HitAt(log, n, j) && !ThreeMisses(log, n, j)
  {
    if ScanFrom(log, n, 0) == Exhausted {
      RunOutMeans(log, n, 0);
    }
    if forall j :: 0 <= j < Steps ==> !HitAt(log, n, j) && !ThreeMisses(log, n, j) {
      ScanRunsOut(log, n, 0);
    }
  }

  /**
   * When the loop runs out (no hit, and never three absent inspections in a
   * row), the entry of `n - 999` decides, and its forward flag is never
   * checked.
   */
  lemma ModeAFallback(log: Log, n: int)
    requires forall j :: 0 <= j < Steps ==> !HitAt(log, n, j) && !ThreeMisses(log, n, j)
    ensures ModeA(log, n) == (if n - Steps !in log then Crash
                              else if Truthy(log[n - Steps].text) then Candidate(log[n - Steps])
                              else NoAnswerDummy)
  {
    ScanRunsOut(log, n, 0);
  }

  /** For instance when the 998 ids below the command all hold messages that are not eligible. */
  lemma ModeAAllStoredFallback(log: Log, n: int)
    requires forall k :: n - 998 <= k <= n - 1 ==> k in log && !Eligible(log[k])
    ensures ModeA(log, n) == (if n - Steps !in log then Crash
                              else if Truthy(log[n - Steps].text) then Candidate(log[n - Steps])
                              else NoAnswerDummy)
  {
    forall j | 0 <= j < Steps ensures !HitAt(log, n, j) && !ThreeMisses(log, n, j) {
      assert InspectedId(n, j) in log;
      if j >= 3 {
        assert InspectedId(n, j - 1) in log;
      }
    }
    ModeAFallback(log, n);
  }

  // ----- Mode B: forwards from a replied-to message -----

  /** `parseInt(ctx.msg.text.split(' ')[1]) || 1`: `NaN`, `0` and a missing token all give 1. */
  function Limit(command: string): (r: int)
    ensures r != 0
    ensures Field(command, ' ', 1).None? ==> r == 1
    ensures Field(command, ' ', 1).Some? && ParseInt(Field(command, ' ', 1).value).None? ==> r == 1
    ensures Field(command, ' ', 1).Some? && ParseInt(Field(command, ' ', 1).value) == Some(0) ==> r == 1
    ensures (Field(command, ' ', 1).Some? && ParseInt(Field(command, ' ', 1).value).Some?
             && ParseInt(Field(command, ' ', 1).value).value != 0) ==> r == ParseInt(Field(command, ' ', 1).value).value
  {
    match Field(command, ' ', 1)
    case None => 1
    case Some(token) =>
      match ParseInt(token)
      case None => 1
      case Some(v) => if v == 0 then 1 else v
  }

  /** `/s` followed by a number asks for exactly that number. */
  lemma LimitOfNumber(n: int)
    requires n != 0
    ensures Limit("/s " + NumberToString(n)) == n
  {
    var name := "/s";
    assert ' ' !in name by { assert name == ['/', 's']; }
    SplitTwo(name, NumberToString(n), ' ');
    assert "/s " + NumberToString(n) == name + [' '] + NumberToString(n);
    ParseIntNumberToString(n);
  }

  /** `/s 0` asks for one source. */
  lemma LimitOfZero()
    ensures Limit("/s 0") == 1
  {
    var name := "/s";
    assert ' ' !in name by { assert name == ['/', 's']; }
    assert "/s 0" == name + [' '] + NatDigits(0);
    SplitTwo(name, NatDigits(0), ' ');
    ParseUnsigned(NatDigits(0), 0);
  }

  /** The stored ids at or above `i`: the entries a forward scan from `i` can still meet. */
  ghost function KeysFrom(log: Log, i: int): set<int>
  {
    set k | k in log && k >= i
  }

  lemma KeysFromStep(log: Log, i: int)
    ensures i in log ==> |KeysFrom(log, i + 1)| < |KeysFrom(log, i)|
    ensures i !in log ==> KeysFrom(log, i + 1) == KeysFrom(log, i)
  {
    if i in log {
      assert KeysFrom(log, i) == KeysFrom(log, i + 1) + {i};
    }
  }

  /** A stored entry without text: the only kind that widens the Mode B window. */
  predicate Textless(log: Log, i: int)
  {
    i in log && !Truthy(log[i].text)
  }

  /**
   * The ids the Mode B loop collects from `i` on while the window ends at
   * `end`; each textless entry moves the end one further. Terminates because
   * only finitely many entries are stored.
   */
  function ScanForward(log: Log, i: int, end: int): (r: seq<int>)
    ensures forall k :: 0 <= k < |r| ==> i <= r[k] && r[k] in log && Eligible(log[r[k]])
    ensures forall k, l :: 0 <= k < l < |r| ==> r[k] < r[l]
    decreases end - i + |KeysFrom(log, i)|
  {
    if i >= end then []
    else
      KeysFromStep(log, i);
      if i in log && Eligible(log[i]) then [i] + ScanForward(log, i + 1, end)
      else if Textless(log, i) then ScanForward(log, i + 1, end + 1)
      else ScanForward(log, i + 1, end)
  }

  /** Where the Mode B loop stops: the first index that reaches the window end. */
  function StopIndex(log: Log, i: int, end: int): int
    decreases end - i + |KeysFrom(log, i)|
  {
    if i >= end then i
    else
      KeysFromStep(log, i);
      StopIndex(log, i + 1, if Textless(log, i) then end + 1 else end)
  }

  /** Mode B: the ids selected from `original` with window `limit`. */
  function ModeBIds(log: Log, original: int, limit: int): seq<int>
  {
    ScanForward(log, original, original + limit)
  }

  /** The number of textless entries in `[lo, hi)`. */
  function TextlessIn(log: Log, lo: int, hi: int): nat
    decreases hi - lo
  {
    if hi <= lo then 0 else TextlessIn(log, lo, hi - 1) + (if Textless(log, hi - 1) then 1 else 0)
  }

  /** The eligible ids in `[lo, hi)`, ascending: a reference definition of the Mode B result. */
  function EligibleIn(log: Log, lo: int, hi: int): (r: seq<int>)
    ensures forall k :: 0 <= k < |r| ==> lo <= r[k] < hi && r[k] in log && Eligible(log[r[k]])
    ensures forall k, l :: 0 <= k < l < |r| ==> r[k] < r[l]
    ensures forall x :: lo <= x < hi && x in log && Eligible(log[x]) ==> x in r
    decreases hi - lo
  {
    if hi <= lo then []
    else EligibleIn(log, lo, hi - 1) + (if hi - 1 in log && Eligible(log[hi - 1]) then [hi - 1] else [])
  }

  /** The window end once `[original, e)` has been scanned. */
  function WindowEnd(log: Log, original: int, limit: int, e: int): int
  {
    original + limit + TextlessIn(log, original, e)
  }

  /** Regrouping a concatenation of three sequences; kept as a lemma so the solver sees only these three terms. */
  lemma Associative(a: seq<int>, b: seq<int>, c: seq<int>)
    ensures a + (b + c) == (a + b) + c
  {
  }

  /** The loop from `i` appends to what it collected exactly the eligible ids up to where it stops. */
  lemma {:induction false} ScanForwardIsEligibleIn(log: Log, original: int, i: int, end: int)
    requires original <= i
    ensures StopIndex(log, i, end) >= i
    ensures EligibleIn(log, original, i) + ScanForward(log, i, end) == EligibleIn(log, original, StopIndex(log, i, end))
    decreases end - i + |KeysFrom(log, i)|
  {
    if i < end {
      KeysFromStep(log, i);
      var end' := if Textless(log, i) then end + 1 else end;
      var head := if i in log && Eligible(log[i]) then [i] else [];
      var before, rest := EligibleIn(log, original, i), ScanForward(log, i + 1, end');
      assert StopIndex(log, i, end) == StopIndex(log, i + 1, end');
      assert ScanForward(log, i, end) == head + rest;
      assert EligibleIn(log, original, i + 1) == before + head;
      ScanForwardIsEligibleIn(log, original, i + 1, end');
      Associative(before, head, rest);
    } else {
      assert ScanForward(log, i, end) == [];
    }
  }

  /** While the loop runs, its window end is the limit plus the textless entries seen, and it stops at the first index that reaches it. */
  lemma {:induction false} StopIndexIsWindowEnd(log: Log, original: int, limit: int, i: int, end: int)
    requires original <= i <= end && end == WindowEnd(log, original, limit, i)
    requires forall e :: original <= e < i ==> e < WindowEnd(log, original, limit, e)
    ensures var stop := StopIndex(log, i, end);
            && stop == WindowEnd(log, original, limit, stop)
            && forall e :: original <= e < stop ==> e < WindowEnd(log, original, limit, e)
    decreases end - i + |KeysFrom(log, i)|
  {
    if i < end {
      KeysFromStep(log, i);
      var end' := if Textless(log, i) then end + 1 else end;
      assert TextlessIn(log, original, i + 1) == TextlessIn(log, original, i) + (if Textless(log, i) then 1 else 0);
      StopIndexIsWindowEnd(log, original, limit, i + 1, end');
    }
  }

  /**
   * Mode B, stated without the loop: with a positive limit, the window ends
   * at the first `stop` where `stop - original` equals the limit plus the
   * textless entries before it, so each textless entry widens the window by
   * exactly one and absent ids and texts that were not forwarded do not; the
   * result is every eligible id in `[original, stop)`, ascending.
   */
  lemma ModeBWindow(log: Log, original: int, limit: int)
    requires limit > 0
    ensures var stop := StopIndex(log, original, original + limit);
            && ModeBIds(log, original, limit) == EligibleIn(log, original, stop)
            && stop - original == limit + TextlessIn(log, original, stop)
            && forall e :: original <= e < stop ==> e - original < limit + TextlessIn(log, original, e)
  {
    ScanForwardIsEligibleIn(log, original, original, original + limit);
    assert EligibleIn(log, original, original) == [];
    StopIndexIsWindowEnd(log, original, limit, original, original + limit);
    var stop := StopIndex(log, original, original + limit);
    forall e | original <= e < stop ensures e - original < limit + TextlessIn(log, original, e) {
      assert e < WindowEnd(log, original, limit, e);
    }
  }

  /** A negative limit selects nothing. */
  lemma ModeBNegativeLimit(log: Log, original: int, limit: int)
    requires limit < 0
    ensures ModeBIds(log, original, limit) == []
  {
  }

  /** The example window: limit 2 from id 5, with 5 textless, scans 5..8 and selects 6 and 7. */
  lemma ModeBExample(log: Log)
    requires 5 in log && !Truthy(log[5].text)
    requires 6 in log && Eligible(log[6]) && 7 in log && Eligible(log[7])
    ensures ModeBIds(log, 5, 2) == [6, 7]
  {
    KeysFromStep(log, 5);
    KeysFromStep(log, 6);
    KeysFromStep(log, 7);
    assert ScanForward(log, 8, 8) == [];
    assert ScanForward(log, 7, 8) == [7];
    assert ScanForward(log, 6, 8) == [6, 7];
    assert ScanForward(log, 5, 7) == ScanForward(log, 6, 8);
  }

  function MessagesOf(log: Log, ids: seq<int>): (r: seq<StoredMessage>)
    requires forall k :: 0 <= k < |ids| ==> ids[k] in log
    ensures |r| == |ids| && forall k :: 0 <= k < |ids| ==> r[k] == log[ids[k]]
  {
    seq(|ids|, k requires 0 <= k < |ids| => log[ids[k]])
  }

  /** The Mode B loop as the handler runs it, `limit` growing inside. */
  method SelectForward(log: Log, original: int, initialLimit: int) returns (selected: seq<StoredMessage>)
    ensures selected == MessagesOf(log, ModeBIds(log, original, initialLimit))
  {
    var limit := initialLimit;
    selected := [];
    ghost var ids: seq<int> := [];
    var i := original;
    while i < original + limit
      invariant forall k :: 0 <= k < |ids| ==> ids[k] in log
      invariant selected == MessagesOf(log, ids)
      invariant ids + ScanForward(log, i, original + limit) == ModeBIds(log, original, initialLimit)
      decreases original + limit - i + |KeysFrom(log, i)|
    {
      KeysFromStep(log, i);
      ghost var end := original + limit;
      if i in log && Truthy(log[i].text) && log[i].forward {
        assert ScanForward(log, i, end) == [i] + ScanForward(log, i + 1, end);
        assert (ids + [i]) + ScanForward(log, i + 1, end) == ids + ([i] + ScanForward(log, i + 1, end));
        assert MessagesOf(log, ids + [i]) == MessagesOf(log, ids) + [log[i]];
        selected := selected + [log[i]];
        ids := ids + [i];
      } else if i in log && !Truthy(log[i].text) {
        assert ScanForward(log, i, end) == ScanForward(log, i + 1, end + 1);
        limit := limit + 1;
      } else {
        assert ScanForward(log, i, end) == ScanForward(log, i + 1, end);
      }
      i := i + 1;
    }
    assert ScanForward(log, i, original + limit) == [];
    assert ids + [] == ids;
  }

  // ----- preprocessing and aggregation -----

  /** `text.replaceAll('\n\n', '\n')`. */
  function Collapse(s: string): string
  {
    ReplaceAll(s, "\n\n", "\n")
  }

  /** The characters of `s` other than line feeds, in order. */
  function WithoutLineFeeds(s: string): string
  {
    if s == [] then [] else (if s[0] == '\n' then [] else [s[0]]) + WithoutLineFeeds(s[1..])
  }

  lemma {:induction false} WithoutLineFeedsAppend(a: string, b: string)
    ensures WithoutLineFeeds(a + b) == WithoutLineFeeds(a) + WithoutLineFeeds(b)
  {
    if a == [] {
      assert a + b == b;
    } else {
      assert (a + b)[1..] == a[1..] + b;
      WithoutLineFeedsAppend(a[1..], b);
    }
  }

  /** Collapsing only removes line feeds: every other character stays, in order, and the text does not grow. */
  lemma {:induction false} CollapseKeepsText(s: string)
    ensures WithoutLineFeeds(Collapse(s)) == WithoutLineFeeds(s)
    ensures |Collapse(s)| <= |s|
    decreases |s|
  {
    if |s| >= 2 {
      if s[..2] == "\n\n" {
        CollapseKeepsText(s[2..]);
        WithoutLineFeedsAppend("\n", Collapse(s[2..]));
        assert s == s[..2] + s[2..];
        WithoutLineFeedsAppend(s[..2], s[2..]);
      } else {
        CollapseKeepsText(s[1..]);
        WithoutLineFeedsAppend([s[0]], Collapse(s[1..]));
        assert s == [s[0]] + s[1..];
        WithoutLineFeedsAppend([s[0]], s[1..]);
      }
    }
  }

  /** Text without two consecutive line feeds is left as it is. */
  lemma {:induction false} CollapseNoDouble(s: string)
    requires forall i :: 0 <= i < |s| - 1 ==> !(s[i] == '\n' && s[i + 1] == '\n')
    ensures Collapse(s) == s
    decreases |s|
  {
    if |s| >= 2 {
      assert s[..2] != "\n\n" by { assert !(s[0] == '\n' && s[1] == '\n'); }
      CollapseNoDouble(s[1..]);
      assert s == [s[0]] + s[1..];
    }
  }

  /** Occurrences are replaced left to right without overlap, so three line feeds become two. */
  lemma CollapseThreeLineFeeds()
    ensures Collapse("\n\n\n") == "\n\n"
  {
    var s := "\n\n\n";
    var pat := "\n\n";
    assert s[..2] == pat;
    assert s[2..] == ['\n'];
    assert ReplaceAll(['\n'], pat, ['\n']) == ['\n'];
    assert ReplaceAll(s, pat, ['\n']) == ['\n'] + ReplaceAll(s[2..], pat, ['\n']);
  }

  const Cut: nat := 677
  const Ellipsis: string := "..."

  /** `text.substring(0, 677) + '...'`: at most 677 characters kept, the ellipsis always added. */
  function Truncate(s: string): (r: string)
    ensures |s| <= Cut ==> r == s + Ellipsis
    ensures |s| > Cut ==> |r| == Cut + |Ellipsis| && r[..Cut] == s[..Cut]
    ensures r[|r| - |Ellipsis|..] == Ellipsis
  {
    var k := if |s| < Cut then |s| else Cut;
    assert |s| <= Cut ==> s[..k] == s;
    s[..k] + Ellipsis
  }

  function CollapseText(m: StoredMessage): StoredMessage
  {
    m.(text := match m.text case Some(t) => Some(Collapse(t)) case None => None)
  }

  /** `msg.text?.substring(0, 677) + '...'`: a missing text would turn into the text `undefined...`. */
  function TruncateText(m: StoredMessage): StoredMessage
  {
    m.(text := Some(match m.text case Some(t) => Truncate(t) case None => "undefined" + Ellipsis))
  }

  /** Collapse every selected text; in a batch of more than one, also truncate each. */
  function PrepareSources(msgs: seq<StoredMessage>): (r: seq<StoredMessage>)
    ensures |r| == |msgs|
    ensures forall k :: 0 <= k < |r| ==>
              && r[k].forward == msgs[k].forward && r[k].forwardUrl == msgs[k].forwardUrl && r[k].user == msgs[k].user
    ensures |msgs| <= 1 ==> forall k :: 0 <= k < |r| ==> r[k].text == CollapseText(msgs[k]).text
    ensures |msgs| > 1 ==> forall k :: 0 <= k < |r| && msgs[k].text.Some? ==>
              r[k].text == Some(Truncate(Collapse(msgs[k].text.value)))
  {
    var collapsed := seq(|msgs|, k requires 0 <= k < |msgs| => CollapseText(msgs[k]));
    if |collapsed| > 1 then seq(|collapsed|, k requires 0 <= k < |collapsed| => TruncateText(collapsed[k]))
    else collapsed
  }

  /** In a batch, a 700-character text is sent as its first 677 characters and the ellipsis. */
  lemma BatchTruncates(msgs: seq<StoredMessage>, k: nat)
    requires |msgs| > 1 && k < |msgs| && msgs[k].text.Some? && |Collapse(msgs[k].text.value)| == 700
    ensures var t := PrepareSources(msgs)[k].text;
            t.Some? && |t.value| == 680 && t.value == Collapse(msgs[k].text.value)[..677] + "..."
  {
    var c := Collapse(msgs[k].text.value);
    var t := Truncate(c);
    assert t[..Cut] == c[..Cut];
    assert t[Cut..] == Ellipsis;
    assert t == t[..Cut] + t[Cut..];
  }

  /** The reply for one source: the post-processed completion followed by a blank line, nothing for no text. */
  function ReplyPiece(m: StoredMessage, prompt: string, api: (string, string) -> ApiAnswer): string
  {
    if Truthy(m.text) then GetReply(Complete(api(m.text.value, prompt)), m.forwardUrl) + "\n\n" else ""
  }

  /** The texts `piece` gives for the sources, one after the other. */
  function Joined(msgs: seq<StoredMessage>, piece: StoredMessage -> string): string
  {
    if msgs == [] then "" else Joined(msgs[..|msgs| - 1], piece) + piece(msgs[|msgs| - 1])
  }

  lemma {:induction false} JoinedAppend(a: seq<StoredMessage>, b: seq<StoredMessage>, piece: StoredMessage -> string)
    ensures Joined(a + b, piece) == Joined(a, piece) + Joined(b, piece)
    decreases |b|
  {
    if b == [] {
      assert a + b == a;
    } else {
      assert (a + b)[..|a + b| - 1] == a + b[..|b| - 1];
      JoinedAppend(a, b[..|b| - 1], piece);
    }
  }

  lemma JoinedCons(m: StoredMessage, rest: seq<StoredMessage>, piece: StoredMessage -> string)
    ensures Joined([m] + rest, piece) == piece(m) + Joined(rest, piece)
  {
    JoinedAppend([m], rest, piece);
    assert [m][..0] == [];
  }

  /** `ReplyPiece` for one prompt and completion service, as a function of the source. */
  function PieceFor(prompt: string, api: (string, string) -> ApiAnswer): StoredMessage -> string
  {
    m => ReplyPiece(m, prompt, api)
  }

  /** The batch reply: the pieces of all sources, in order. */
  function Replies(msgs: seq<StoredMessage>, prompt: string, api: (string, string) -> ApiAnswer): string
  {
    Joined(msgs, PieceFor(prompt, api))
  }

  /** The batch reply of two runs of sources is the two batch replies, one after the other. */
  lemma RepliesAppend(a: seq<StoredMessage>, b: seq<StoredMessage>, prompt: string, api: (string, string) -> ApiAnswer)
    ensures Replies(a + b, prompt, api) == Replies(a, prompt, api) + Replies(b, prompt, api)
  {
    JoinedAppend(a, b, PieceFor(prompt, api));
  }

  /** A failed completion shows up inline and the batch goes on: the error text, then the later replies. */
  lemma FailureDoesNotStopBatch(m: StoredMessage, rest: seq<StoredMessage>, prompt: string,
                                api: (string, string) -> ApiAnswer)
    requires Truthy(m.text) && Complete(api(m.text.value, prompt)).Failed?
    ensures var piece := ReplyPiece(m, prompt, api);
            && |piece| >= |ErrorPrefix| && piece[..|ErrorPrefix|] == ErrorPrefix
            && Replies([m] + rest, prompt, api) == piece + Replies(rest, prompt, api)
  {
    FailedPiece(m, prompt, api);
    JoinedCons(m, rest, PieceFor(prompt, api));
  }

  lemma FailedPiece(m: StoredMessage, prompt: string, api: (string, string) -> ApiAnswer)
    requires Truthy(m.text) && Complete(api(m.text.value, prompt)).Failed?
    ensures var piece := ReplyPiece(m, prompt, api);
            |piece| >= |ErrorPrefix| && piece[..|ErrorPrefix|] == ErrorPrefix
  {
    var r := GetReply(Complete(api(m.text.value, prompt)), m.forwardUrl);
    assert ReplyPiece(m, prompt, api) == r + "\n\n";
    assert (r + "\n\n")[..|ErrorPrefix|] == r[..|ErrorPrefix|];
  }

  /** Every underscore of `s` is preceded by a backslash, so Markdown shows it literally. */
  predicate UnderscoresEscaped(s: string)
  {
    forall i :: 0 <= i < |s| && s[i] == '_' ==> 0 < i && s[i - 1] == '\\'
  }

  lemma EscapedConcat(a: string, b: string)
    requires UnderscoresEscaped(a) && UnderscoresEscaped(b)
    ensures UnderscoresEscaped(a + b)
  {
    forall i | 0 <= i < |a + b| && (a + b)[i] == '_' ensures 0 < i && (a + b)[i - 1] == '\\' {
      if i < |a| {
        assert (a + b)[i] == a[i];
      } else {
        assert (a + b)[i] == b[i - |a|];
        assert (a + b)[i - 1] == b[i - |a| - 1];
      }
    }
  }

  /** The batch reply carries no unescaped underscore either, whatever the completions said. */
  lemma {:induction false} RepliesEscaped(msgs: seq<StoredMessage>, prompt: string, api: (string, string) -> ApiAnswer)
    ensures UnderscoresEscaped(Replies(msgs, prompt, api))
    decreases |msgs|
  {
    if msgs != [] {
      var m := msgs[|msgs| - 1];
      RepliesEscaped(msgs[..|msgs| - 1], prompt, api);
      var piece := ReplyPiece(m, prompt, api);
      if Truthy(m.text) {
        var r := GetReply(Complete(api(m.text.value, prompt)), m.forwardUrl);
        assert UnderscoresEscaped(r);
        assert UnderscoresEscaped("\n\n");
        EscapedConcat(r, "\n\n");
      }
      EscapedConcat(Replies(msgs[..|msgs| - 1], prompt, api), piece);
    }
  }

  /** The `response +=` loop over the prepared sources. */
  method Aggregate(msgs: seq<StoredMessage>, prompt: string, api: (string, string) -> ApiAnswer)
    returns (response: string)
    ensures response == Replies(msgs, prompt, api)
  {
    response := "";
    for k := 0 to |msgs|
      invariant response == Replies(msgs[..k], prompt, api)
    {
      assert msgs[..k + 1][..k] == msgs[..k];
      var m := msgs[k];
      if !Truthy(m.text) {
        continue;
      }
      var reply := GetReply(Complete(api(m.text.value, prompt)), m.forwardUrl);
      response := response + reply + "\n\n";
    }
    assert msgs[..|msgs|] == msgs;
  }
}
