/** Extracting tool calls from streamed text: segment by segment, and all at once. */
module ToolCalls {
  import opened Options

  /** A parsed call: its function name and arguments. */
  datatype Call = Call(name: string, arguments: string)

  /** A call as reported; the index is given only when streaming. */
  datatype Reported = Reported(call: Call, index: Option<nat>)

  /** Markers, the parser (nothing when it fails), and whether the reply is streamed. */
  datatype Config = Config(start: string, end: string, parser: string -> Option<seq<Call>>, stream: bool) {
    predicate Valid() {
      start != "" && end != ""
    }
  }

  /** Whether a call is open, its text so far, the next index, and whether any call was opened. */
  datatype State = State(inCall: bool, text: string, index: nat, made: bool)

  datatype Extracted = Extracted(text: string, calls: seq<Reported>, state: State)

  predicate At(s: string, m: string, i: int) {
    0 <= i && i + |m| <= |s| && s[i..i + |m|] == m
  }

  /** The first position from `from` on where `m` occurs. */
  function Find(s: string, m: string, from: nat): (r: Option<nat>)
    requires from <= |s|
    ensures r.Some? ==> from <= r.value && r.value + |m| <= |s|
    ensures r.Some? ==> At(s, m, r.value) && forall i :: from <= i < r.value ==> !At(s, m, i)
    ensures r.None? ==> forall i :: from <= i ==> !At(s, m, i)
    decreases |s| - from
  {
    if At(s, m, from) then Some(from)
    else if from == |s| then None
    else Find(s, m, from + 1)
  }

  function Report(config: Config, calls: seq<Call>, index: nat): (r: seq<Reported>)
    ensures |r| == |calls|
  {
    seq(|calls|, k requires 0 <= k < |calls| => Reported(calls[k], if config.stream then Some(index + k) else None))
  }

  /** The outcome of closing a call: its text parses into calls, or comes back as it was written. */
  function Close(config: Config, state: State, text: string): Extracted {
    var after := state.(inCall := false, text := "");
    match config.parser(text)
    case Some(calls) => Extracted("", Report(config, calls, state.index), after.(index := state.index + if config.stream then |calls| else 0))
    case None => Extracted(config.start + text + config.end, [], after)
  }

  function Begun(state: State): State {
    state.(inCall := true, made := true, text := "")
  }

  function Then(first: Extracted, second: Extracted): Extracted {
    Extracted(first.text + second.text, first.calls + second.calls, second.state)
  }

  /** One-shot extraction, marker by marker. */
  function Scan(config: Config, state: State, s: string): Extracted
    requires config.Valid()
    decreases |s|
  {
    if s == "" then Extracted("", [], state)
    else if !state.inCall then
      match Find(s, config.start, 0)
      case None => Extracted(s, [], state)
      case Some(p) =>
        var begun := Begun(state);
        Then(Extracted(s[..p], [], begun), Scan(config, begun, s[p + |config.start|..]))
    else
      match Find(s, config.end, 0)
      case None => Extracted("", [], state.(text := state.text + s))
      case Some(p) =>
        var closed := Close(config, state, state.text + s[..p]);
        Then(closed, Scan(config, closed.state, s[p + |config.end|..]))
  }

  /** Extraction that carries its state from segment to segment. */
  class ToolCallState {
    const config: Config
    var state: State

    constructor (config: Config)
      ensures this.config == config && state == State(false, "", 0, false)
    {
      this.config, state := config, State(false, "", 0, false);
    }

    /** Reads one more segment: text to pass on, and calls that closed in it. */
    method ExtractFromSegment(segment: string) returns (text: string, calls: seq<Reported>)
      requires config.Valid()
      modifies this
      ensures Extracted(text, calls, state) == Scan(config, old(state), segment)
    {
      hide Scan, Find, Close;
      text, calls := "", [];
      var idx := 0;
      assert segment[0..] == segment;
      while idx < |segment|
        invariant 0 <= idx <= |segment|
        invariant Then(Extracted(text, calls, state), Scan(config, state, segment[idx..])) == Scan(config, old(state), segment)
      {
        ghost var before, state0 := Extracted(text, calls, state), state;
        if !state.inCall {
          OpenStep(config, state, segment, idx);
          match Find(segment, config.start, idx) {
            case None =>
              text := text + segment[idx..];
              return;
            case Some(p) =>
              ghost var plain := segment[idx..p];
              text := text + segment[idx..p];
              state := Begun(state);
              idx := p + |config.start|;
              ThenAssoc(before, Extracted(plain, [], state), Scan(config, state, segment[idx..]));
          }
        } else {
          CloseStep(config, state, segment, idx);
          match Find(segment, config.end, idx) {
            case None =>
              state := state.(text := state.text + segment[idx..]);
              return;
            case Some(p) =>
              var closed := Close(config, state, state.text + segment[idx..p]);
              text, calls, state := text + closed.text, calls + closed.calls, closed.state;
              idx := p + |config.end|;
              ThenAssoc(before, closed, Scan(config, state, segment[idx..]));
          }
        }
      }
      ScanNothing(config, state, segment[idx..]);
    }
  }

  lemma {:induction false} ScanNothing(config: Config, state: State, s: string)
    requires config.Valid() && s == ""
    ensures Scan(config, state, s) == Extracted("", [], state)
  {
  }

  lemma {:induction false} ThenAssoc(a: Extracted, b: Extracted, c: Extracted)
    ensures Then(Then(a, b), c) == Then(a, Then(b, c))
  {
    assert a.text + b.text + c.text == a.text + (b.text + c.text);
    assert a.calls + b.calls + c.calls == a.calls + (b.calls + c.calls);
  }

  /** Outside a call, the rest is plain text up to the next start marker. */
  lemma {:induction false} OpenStep(config: Config, state: State, s: string, idx: nat)
    requires config.Valid() && !state.inCall && idx < |s|
    ensures match Find(s, config.start, idx)
            case None => Scan(config, state, s[idx..]) == Extracted(s[idx..], [], state)
            case Some(p) =>
              var begun := Begun(state);
              Scan(config, state, s[idx..]) == Then(Extracted(s[idx..p], [], begun), Scan(config, begun, s[p + |config.start|..]))
  {
    hide Find, At, Close, Then;
    FindFrom(s, config.start, idx);
    match Find(s, config.start, idx)
    case None =>
    case Some(p) =>
      assert s[idx..][..p - idx] == s[idx..p] && s[idx..][p - idx + |config.start|..] == s[p + |config.start|..];
  }

  /** Inside a call, the rest is the call's text up to the next end marker. */
  lemma {:induction false} CloseStep(config: Config, state: State, s: string, idx: nat)
    requires config.Valid() && state.inCall && idx < |s|
    ensures match Find(s, config.end, idx)
            case None => Scan(config, state, s[idx..]) == Extracted("", [], state.(text := state.text + s[idx..]))
            case Some(p) =>
              var closed := Close(config, state, state.text + s[idx..p]);
              Scan(config, state, s[idx..]) == Then(closed, Scan(config, closed.state, s[p + |config.end|..]))
  {
    hide Find, At, Close, Then;
    FindFrom(s, config.end, idx);
    match Find(s, config.end, idx)
    case None =>
    case Some(p) =>
      assert s[idx..][..p - idx] == s[idx..p] && s[idx..][p - idx + |config.end|..] == s[p + |config.end|..];
  }

  /** Searching from an index is searching the rest of the string. */
  lemma {:induction false} FindFrom(s: string, m: string, from: nat)
    requires from <= |s|
    ensures Find(s[from..], m, 0) == match Find(s, m, from) case None => None case Some(p) => Some(p - from)
  {
    hide At;
    forall i
      ensures i >= 0 ==> (At(s[from..], m, i) <==> At(s, m, i + from))
      ensures i < 0 ==> !At(s[from..], m, i)
    {
      AtShifted(s, m, from, i);
    }
    match Find(s, m, from) {
      case Some(p) => AtShifted(s, m, from, p - from);
      case None =>
    }
  }

  lemma {:induction false} AtShifted(s: string, m: string, from: nat, i: int)
    requires from <= |s|
    ensures i >= 0 ==> (At(s[from..], m, i) <==> At(s, m, i + from))
    ensures i < 0 ==> !At(s[from..], m, i)
  {
    if 0 <= i && i + |m| <= |s| - from {
      assert s[from..][i..i + |m|] == s[i + from..i + from + |m|];
    }
  }

  /** An occurrence of the marker begins before position `b` and ends after it. */
  ghost predicate Straddles(s: string, m: string, b: int) {
    exists i :: At(s, m, i) && i < b < i + |m|
  }

  /** The first occurrence of the marker does not lie across position `b`. */
  predicate FirstWhole(s: string, m: string, b: int) {
    match Find(s, m, 0) case None => true case Some(p) => !(p < b < p + |m|)
  }

  /** An occurrence in a piece is one in the whole, and one in the whole that is not cut is in a piece. */
  lemma {:induction false} OccursSplit(a: string, b: string, m: string, i: int)
    requires m != ""
    ensures At(a, m, i) || At(b, m, i - |a|) ==> At(a + b, m, i)
    ensures At(a + b, m, i) && !(i < |a| < i + |m|) ==> At(a, m, i) || At(b, m, i - |a|)
    ensures At(a, m, i) ==> i + |m| <= |a|
    ensures At(b, m, i - |a|) ==> |a| <= i
  {
    var s := a + b;
    if 0 <= i && i + |m| <= |a| {
      assert s[i..i + |m|] == a[i..i + |m|];
    } else if |a| <= i && i + |m| <= |s| {
      assert s[i..i + |m|] == b[i - |a|..i - |a| + |m|];
    }
  }

  lemma {:induction false} FindSplit(a: string, b: string, m: string)
    requires m != "" && FirstWhole(a + b, m, |a|)
    ensures Find(a + b, m, 0) == match Find(a, m, 0)
                                 case Some(p) => Some(p)
                                 case None => (match Find(b, m, 0) case None => None case Some(q) => Some(|a| + q))
  {
    hide At;
    forall i: int
      ensures At(a, m, i) || At(b, m, i - |a|) ==> At(a + b, m, i)
      ensures At(a + b, m, i) && !(i < |a| < i + |m|) ==> At(a, m, i) || At(b, m, i - |a|)
      ensures At(a, m, i) ==> i + |m| <= |a|
      ensures At(b, m, i - |a|) ==> |a| <= i
    {
      OccursSplit(a, b, m, i);
    }
    match Find(a, m, 0) {
      case Some(p) =>
        OccursSplit(a, b, m, p);
      case None =>
        match Find(b, m, 0) {
          case Some(q) =>
            OccursSplit(a, b, m, |a| + q);
          case None =>
        }
    }
  }

  /** Position `k` is not inside a marker that extraction recognises on its way through `s`. */
  predicate CutBetween(config: Config, inCall: bool, s: string, k: int)
    requires config.Valid()
    decreases |s|
  {
    var m := if inCall then config.end else config.start;
    match Find(s, m, 0)
    case None => true
    case Some(p) => k <= p || (p + |m| <= k && CutBetween(config, !inCall, s[p + |m|..], k - p - |m|))
  }

  lemma {:induction false} CutFirst(config: Config, inCall: bool, s: string, k: int)
    requires config.Valid() && CutBetween(config, inCall, s, k)
    ensures FirstWhole(s, if inCall then config.end else config.start, k)
  {
    hide Find, At;
  }

  lemma {:induction false} CutLater(config: Config, inCall: bool, a: string, b: string, p: nat)
    requires config.Valid() && CutBetween(config, inCall, a + b, |a|)
    requires var m := if inCall then config.end else config.start; p + |m| <= |a| && Find(a + b, m, 0) == Some(p)
    ensures var k := p + |if inCall then config.end else config.start|; CutBetween(config, !inCall, a[k..] + b, |a[k..]|)
  {
    hide Find, At;
    var k := p + |if inCall then config.end else config.start|;
    assert (a + b)[k..] == a[k..] + b;
  }

  /** What is recognised in the beginning of a text is recognised in the text. */
  lemma {:induction false} CutPrefix(config: Config, inCall: bool, a: string, b: string, k: int)
    requires config.Valid() && CutBetween(config, inCall, a + b, k)
    ensures CutBetween(config, inCall, a, k)
    decreases |a|
  {
    hide Find;
    var m := if inCall then config.end else config.start;
    if p :| Find(a, m, 0) == Some(p) {
      FirstOfPrefix(a, b, m, p);
      assert (a + b)[p + |m|..] == a[p + |m|..] + b;
      if p + |m| <= k {
        CutPrefix(config, !inCall, a[p + |m|..], b, k - p - |m|);
      }
    }
  }

  lemma {:induction false} FirstOfPrefix(a: string, b: string, m: string, p: nat)
    requires m != "" && Find(a, m, 0) == Some(p)
    ensures Find(a + b, m, 0) == Some(p)
  {
    hide At;
    forall i: int
      ensures At(a, m, i) ==> At(a + b, m, i)
      ensures At(a + b, m, i) && i < p ==> At(a, m, i)
    {
      OccursSplit(a, b, m, i);
    }
  }

  /** A position no marker lies across is not inside a recognised one. */
  lemma {:induction false} WholeIsBetween(config: Config, inCall: bool, s: string, k: int)
    requires config.Valid() && !Straddles(s, config.start, k) && !Straddles(s, config.end, k)
    ensures CutBetween(config, inCall, s, k)
    decreases |s|
  {
    hide Find;
    var m := if inCall then config.end else config.start;
    if p :| Find(s, m, 0) == Some(p) {
      assert At(s, m, p);
      if p + |m| <= k {
        StraddlesLater(s, config.start, p + |m|, k);
        StraddlesLater(s, config.end, p + |m|, k);
        WholeIsBetween(config, !inCall, s[p + |m|..], k - p - |m|);
      }
    }
  }

  lemma {:induction false} StraddlesLater(s: string, m: string, from: nat, k: int)
    requires from <= |s| && !Straddles(s, m, k)
    ensures !Straddles(s[from..], m, k - from)
  {
    forall i | At(s[from..], m, i)
      ensures At(s, m, i + from)
    {
      assert s[i + from..i + from + |m|] == s[from..][i..i + |m|];
    }
  }

  lemma {:induction false} Outside(config: Config, state: State, s: string)
    requires config.Valid() && !state.inCall && s != ""
    ensures match Find(s, config.start, 0)
            case None => Scan(config, state, s) == Extracted(s, [], state)
            case Some(p) => Scan(config, state, s) == Then(Extracted(s[..p], [], Begun(state)), Scan(config, Begun(state), s[p + |config.start|..]))
  {
    hide Find, At, Close, Then, Begun;
  }

  lemma {:induction false} Inside(config: Config, state: State, s: string)
    requires config.Valid() && state.inCall && s != ""
    ensures match Find(s, config.end, 0)
            case None => Scan(config, state, s) == Extracted("", [], state.(text := state.text + s))
            case Some(p) =>
              var closed := Close(config, state, state.text + s[..p]);
              Scan(config, state, s) == Then(closed, Scan(config, closed.state, s[p + |config.end|..]))
  {
    hide Find, At, Close, Then, Begun;
  }

  lemma {:induction false} ScanLast(config: Config, state: State, a: string)
    requires config.Valid()
    ensures var first := Scan(config, state, a);
            Then(first, Scan(config, first.state, "")) == first
    ensures Then(Extracted("", [], state), Scan(config, state, a)) == Scan(config, state, a)
  {
    hide Find, Close;
  }

  /** Cutting text outside the markers recognised in it, and extracting piece by piece, changes nothing. */
  lemma {:induction false} ScanSplit(config: Config, state: State, a: string, b: string)
    requires config.Valid() && CutBetween(config, state.inCall, a + b, |a|)
    ensures var first := Scan(config, state, a);
            Scan(config, state, a + b) == Then(first, Scan(config, first.state, b))
    decreases |a|
  {
    hide Scan, Find, At, Close, Then, Begun, CutBetween, FirstWhole;
    if a == "" {
      ScanNothing(config, state, a);
      ScanLast(config, state, b);
      assert a + b == b;
    } else if b == "" {
      ScanLast(config, state, a);
      assert a + b == a;
    } else if !state.inCall {
      CutFirst(config, state.inCall, a + b, |a|);
      SplitOutside(config, state, a, b);
      if p :| Find(a, config.start, 0) == Some(p) {
        FindSplit(a, b, config.start);
        CutLater(config, state.inCall, a, b, p);
        BegunOpen(state);
        ScanSplit(config, Begun(state), a[p + |config.start|..], b);
        var rest := Scan(config, Begun(state), a[p + |config.start|..]);
        ThenAssoc(Extracted(a[..p], [], Begun(state)), rest, Scan(config, rest.state, b));
        ThenState(Extracted(a[..p], [], Begun(state)), rest);
      }
    } else {
      CutFirst(config, state.inCall, a + b, |a|);
      SplitInside(config, state, a, b);
      if p :| Find(a, config.end, 0) == Some(p) {
        var closed := Close(config, state, state.text + a[..p]);
        FindSplit(a, b, config.end);
        CutLater(config, state.inCall, a, b, p);
        ClosedShut(config, state, state.text + a[..p]);
        ScanSplit(config, closed.state, a[p + |config.end|..], b);
        var rest := Scan(config, closed.state, a[p + |config.end|..]);
        ThenAssoc(closed, rest, Scan(config, rest.state, b));
        ThenState(closed, rest);
      }
    }
  }

  lemma {:induction false} BegunOpen(state: State)
    ensures Begun(state).inCall
  {
  }

  lemma {:induction false} ClosedShut(config: Config, state: State, text: string)
    ensures !Close(config, state, text).state.inCall
  {
  }

  lemma {:induction false} ThenState(a: Extracted, b: Extracted)
    ensures Then(a, b).state == b.state
  {
  }

  lemma {:induction false} SplitOutside(config: Config, state: State, a: string, b: string)
    requires config.Valid() && FirstWhole(a + b, config.start, |a|) && a != "" && b != "" && !state.inCall
    ensures match Find(a, config.start, 0)
            case None => Scan(config, state, a + b) == Then(Scan(config, state, a), Scan(config, Scan(config, state, a).state, b))
            case Some(p) =>
              var k := p + |config.start|;
              && Scan(config, state, a) == Then(Extracted(a[..p], [], Begun(state)), Scan(config, Begun(state), a[k..]))
              && Scan(config, state, a + b) == Then(Extracted(a[..p], [], Begun(state)), Scan(config, Begun(state), a[k..] + b))
  {
    hide Scan, Find, At, Close, FirstWhole, Begun;
    var s := a + b;
    FindSplit(a, b, config.start);
    Outside(config, state, a);
    Outside(config, state, s);
    Outside(config, state, b);
    match Find(a, config.start, 0) {
      case Some(p) =>
        assert s[..p] == a[..p] && s[p + |config.start|..] == a[p + |config.start|..] + b;
      case None =>
        match Find(b, config.start, 0) {
          case None =>
          case Some(q) =>
            assert s[..|a| + q] == a + b[..q] && s[|a| + q + |config.start|..] == b[q + |config.start|..];
        }
    }
  }

  lemma {:induction false} SplitInside(config: Config, state: State, a: string, b: string)
    requires config.Valid() && FirstWhole(a + b, config.end, |a|) && a != "" && b != "" && state.inCall
    ensures match Find(a, config.end, 0)
            case None => Scan(config, state, a + b) == Then(Scan(config, state, a), Scan(config, Scan(config, state, a).state, b))
            case Some(p) =>
              var closed, k := Close(config, state, state.text + a[..p]), p + |config.end|;
              && Scan(config, state, a) == Then(closed, Scan(config, closed.state, a[k..]))
              && Scan(config, state, a + b) == Then(closed, Scan(config, closed.state, a[k..] + b))
  {
    hide Scan, Find, At, Close, FirstWhole, Begun;
    var s := a + b;
    FindSplit(a, b, config.end);
    Inside(config, state, a);
    Inside(config, state, s);
    match Find(a, config.end, 0) {
      case Some(p) =>
        assert s[..p] == a[..p] && s[p + |config.end|..] == a[p + |config.end|..] + b;
      case None =>
        var grown := state.(text := state.text + a);
        Inside(config, grown, b);
        ScanLast(config, grown, b);
        assert state.text + s == grown.text + b;
        match Find(b, config.end, 0) {
          case None =>
          case Some(q) =>
            assert s[..|a| + q] == a + b[..q] && s[|a| + q + |config.end|..] == b[q + |config.end|..];
            assert state.text + s[..|a| + q] == grown.text + b[..q];
            CloseGrown(config, state, a, grown.text + b[..q]);
        }
    }
  }

  /** Closing a call forgets the text gathered so far. */
  lemma {:induction false} CloseGrown(config: Config, state: State, a: string, text: string)
    ensures Close(config, state.(text := state.text + a), text) == Close(config, state, text)
  {
  }

  function Joined(chunks: seq<string>): string {
    if chunks == [] then "" else Joined(chunks[..|chunks| - 1]) + chunks[|chunks| - 1]
  }

  /** Streaming: the segments one after the other, outputs put together. */
  function Stream(config: Config, state: State, chunks: seq<string>): Extracted
    requires config.Valid()
  {
    if chunks == [] then Extracted("", [], state)
    else
      var before := Stream(config, state, chunks[..|chunks| - 1]);
      Then(before, Scan(config, before.state, chunks[|chunks| - 1]))
  }

  /** No chunk boundary lies inside a marker that one-shot extraction recognises. */
  ghost predicate CutsBetween(config: Config, inCall: bool, chunks: seq<string>)
    requires config.Valid()
  {
    forall k :: 0 <= k <= |chunks| ==> CutBetween(config, inCall, Joined(chunks), |Joined(chunks[..k])|)
  }

  /** No occurrence of a marker in the whole text, recognised or not, lies across a chunk boundary. */
  ghost predicate MarkersWhole(config: Config, chunks: seq<string>) {
    forall k :: 0 <= k <= |chunks| ==>
      && !Straddles(Joined(chunks), config.start, |Joined(chunks[..k])|)
      && !Straddles(Joined(chunks), config.end, |Joined(chunks[..k])|)
  }

  /** Chunks that cut no marker at all cut none that is recognised. */
  lemma {:induction false} WholeCutsBetween(config: Config, inCall: bool, chunks: seq<string>)
    requires config.Valid() && MarkersWhole(config, chunks)
    ensures CutsBetween(config, inCall, chunks)
  {
    hide Straddles, CutBetween;
    forall k | 0 <= k <= |chunks|
      ensures CutBetween(config, inCall, Joined(chunks), |Joined(chunks[..k])|)
    {
      WholeIsBetween(config, inCall, Joined(chunks), |Joined(chunks[..k])|);
    }
  }

  lemma {:induction false} CutsWithoutLast(config: Config, inCall: bool, chunks: seq<string>)
    requires config.Valid() && chunks != [] && CutsBetween(config, inCall, chunks)
    ensures CutsBetween(config, inCall, chunks[..|chunks| - 1])
    ensures CutBetween(config, inCall, Joined(chunks), |Joined(chunks[..|chunks| - 1])|)
  {
    hide CutBetween;
    var init, last := chunks[..|chunks| - 1], chunks[|chunks| - 1];
    forall k | 0 <= k <= |init|
      ensures CutBetween(config, inCall, Joined(init), |Joined(init[..k])|)
    {
      assert init[..k] == chunks[..k];
      CutPrefix(config, inCall, Joined(init), last, |Joined(chunks[..k])|);
    }
  }

  /** When no chunk boundary lies inside a recognised marker, streaming gives the same text, calls and state as one shot. */
  lemma {:induction false} StreamingIsOneShot(config: Config, state: State, chunks: seq<string>)
    requires config.Valid() && CutsBetween(config, state.inCall, chunks)
    ensures Stream(config, state, chunks) == Scan(config, state, Joined(chunks))
  {
    if chunks != [] {
      hide CutBetween, CutsBetween, Scan;
      var init, last := chunks[..|chunks| - 1], chunks[|chunks| - 1];
      CutsWithoutLast(config, state.inCall, chunks);
      StreamingIsOneShot(config, state, init);
      ScanSplit(config, state, Joined(init), last);
    }
  }

  /** In particular when chunk boundaries fall between markers, recognised or not. */
  lemma {:induction false} WholeMarkersStream(config: Config, state: State, chunks: seq<string>)
    requires config.Valid() && MarkersWhole(config, chunks)
    ensures Stream(config, state, chunks) == Scan(config, state, Joined(chunks))
  {
    WholeCutsBetween(config, state.inCall, chunks);
    StreamingIsOneShot(config, state, chunks);
  }

  ghost predicate AlwaysFails(config: Config) {
    forall text :: config.parser(text).None?
  }

  /** What was read but not passed on: an open call as it was written. */
  function Pending(config: Config, state: State): string {
    if state.inCall then config.start + state.text else ""
  }

  /** When no call ever parses, nothing is lost: text passed on and text pending make up the input. */
  lemma {:induction false} NothingLost(config: Config, state: State, s: string)
    requires config.Valid() && AlwaysFails(config)
    ensures var x := Scan(config, state, s);
            x.calls == [] && Pending(config, state) + s == x.text + Pending(config, x.state)
    decreases |s|
  {
    hide Scan, Find, At, Begun, Close, AlwaysFails;
    if s == "" {
      ScanNothing(config, state, s);
    } else if !state.inCall {
      Outside(config, state, s);
      if p :| Find(s, config.start, 0) == Some(p) {
        LostOutside(config, state, s, p);
        NothingLost(config, Begun(state), s[p + |config.start|..]);
      }
    } else {
      Inside(config, state, s);
      if p :| Find(s, config.end, 0) == Some(p) {
        LostInside(config, state, s, p);
        NothingLost(config, Close(config, state, state.text + s[..p]).state, s[p + |config.end|..]);
      }
    }
  }

  lemma {:induction false} LostOutside(config: Config, state: State, s: string, p: nat)
    requires Find(s, config.start, 0) == Some(p) && !state.inCall
    ensures Pending(config, state) + s == s[..p] + (Pending(config, Begun(state)) + s[p + |config.start|..])
  {
    assert s == s[..p] + s[p..p + |config.start|] + s[p + |config.start|..];
  }

  lemma {:induction false} Regroup(a: string, b: string, c: string, d: string, e: string)
    ensures a + b + (c + d + e) == a + (b + c) + d + ("" + e)
  {
  }

  lemma {:induction false} LostInside(config: Config, state: State, s: string, p: nat)
    requires Find(s, config.end, 0) == Some(p) && state.inCall && AlwaysFails(config)
    ensures var closed := Close(config, state, state.text + s[..p]);
            closed.calls == [] && Pending(config, state) + s == closed.text + (Pending(config, closed.state) + s[p + |config.end|..])
  {
    hide Find;
    var head, tail := s[..p], s[p + |config.end|..];
    assert s[p..p + |config.end|] == config.end;
    assert s == head + config.end + tail;
    Regroup(config.start, state.text, head, config.end, tail);
  }

  /** Nothing is lost when streaming either, wherever the chunks are cut. */
  lemma {:induction false} NothingLostStreaming(config: Config, state: State, chunks: seq<string>)
    requires config.Valid() && AlwaysFails(config)
    ensures var x := Stream(config, state, chunks);
            x.calls == [] && Pending(config, state) + Joined(chunks) == x.text + Pending(config, x.state)
  {
    hide Scan, AlwaysFails, Pending;
    if chunks == [] {
      assert Pending(config, state) + "" == "" + Pending(config, state);
    } else {
      var init, last := chunks[..|chunks| - 1], chunks[|chunks| - 1];
      var before := Stream(config, state, init);
      var x := Scan(config, before.state, last);
      NothingLostStreaming(config, state, init);
      NothingLost(config, before.state, last);
      calc {
        Pending(config, state) + (Joined(init) + last);
        (Pending(config, state) + Joined(init)) + last;
        (before.text + Pending(config, before.state)) + last;
        before.text + (Pending(config, before.state) + last);
        before.text + (x.text + Pending(config, x.state));
        (before.text + x.text) + Pending(config, x.state);
      }
    }
  }

  /** A parser that always fails, and a stream that ends outside a call, give back the input, wherever it was cut. */
  lemma {:induction false} FailuresGiveBackInput(config: Config, chunks: seq<string>)
    requires config.Valid() && AlwaysFails(config)
    requires var end := Stream(config, State(false, "", 0, false), chunks).state; !end.inCall
    ensures Stream(config, State(false, "", 0, false), chunks).text == Joined(chunks)
  {
    hide Scan, Stream, Joined, AlwaysFails;
    NothingLostStreaming(config, State(false, "", 0, false), chunks);
    var x := Stream(config, State(false, "", 0, false), chunks);
    assert "" + Joined(chunks) == Joined(chunks) && x.text + "" == x.text;
  }

  /** A marker cut by a chunk boundary is missed: the same text gives a call in one shot and none in two chunks. */
  lemma {:induction false} CutMarkerMissed(config: Config, call: Call)
    requires config.start == "<t>" && config.end == "</t>" && !config.stream && config.parser("x") == Some([call])
    ensures var state := State(false, "", 0, false);
            && Scan(config, state, "<t>x</t>").calls == [Reported(call, None)]
            && Stream(config, state, ["<t", ">x</t>"]).calls == []
  {
    hide Scan, Find, Stream;
    OneShotFinds(config, call);
    ChunksMiss(config);
  }

  lemma {:induction false} OneShotFinds(config: Config, call: Call)
    requires config.start == "<t>" && config.end == "</t>" && !config.stream && config.parser("x") == Some([call])
    ensures Scan(config, State(false, "", 0, false), "<t>x</t>").calls == [Reported(call, None)]
  {
    hide Scan;
    var state, s := State(false, "", 0, false), "<t>x</t>";
    Outside(config, state, s);
    assert s[..3] == "<t>";
    assert Find(s, "<t>", 0) == Some(0) && s[3..] == "x</t>";
    var t := "x</t>";
    Inside(config, Begun(state), t);
    assert t[0] == 'x' && t[0..4][0] == t[0];
    assert !At(t, "</t>", 0) && t[1..5] == "</t>";
    assert Find(t, "</t>", 0) == Some(1) && t[..1] == "x" && t[5..] == "";
    assert s[0 + |config.start|..] == t && Begun(state).text + t[..1] == "x";
    var closed := Close(config, Begun(state), "x");
    assert closed.calls == [Reported(call, None)];
    ScanNothing(config, closed.state, "");
  }

  lemma {:induction false} ChunksMiss(config: Config)
    requires config.start == "<t>" && config.end == "</t>"
    ensures Stream(config, State(false, "", 0, false), ["<t", ">x</t>"]).calls == []
  {
    hide Scan;
    var state, rest := State(false, "", 0, false), ">x</t>";
    Outside(config, state, "<t");
    forall i: int
      ensures !At(rest, "<t>", i)
    {
      if 0 <= i && i + 3 <= |rest| {
        assert rest[i..i + 3][0] == rest[i] && rest[i..i + 3][1] == rest[i + 1];
      }
    }
    Outside(config, state, rest);
    assert ["<t", ">x</t>"][..1] == ["<t"];
    assert Stream(config, state, ["<t"]).calls == [] && Stream(config, state, ["<t"]).state == state;
  }

  /** A cut inside a recognised marker need not show: with a parser that fails, the pieces come out as they went in. */
  lemma {:induction false} CutMayNotShow(config: Config)
    requires config.start == "ab" && config.end == "cd" && config.parser("").None?
    ensures var state, chunks := State(false, "", 0, true), ["a", "bcd"];
            !CutsBetween(config, false, chunks) && Stream(config, state, chunks) == Scan(config, state, Joined(chunks))
  {
    hide Scan, Stream;
    var state, chunks := State(false, "", 0, true), ["a", "bcd"];
    FailedCall(config, state);
    CutStream(config, state);
    assert chunks[..1] == ["a"] && chunks[..0] == [];
    assert Joined(["a"]) == "a" && Joined(chunks) == "abcd";
    StartFirst();
    assert !CutBetween(config, false, Joined(chunks), |Joined(chunks[..1])|);
  }

  lemma {:induction false} StartFirst()
    ensures Find("abcd", "ab", 0) == Some(0) && Find("cd", "cd", 0) == Some(0)
  {
    assert "abcd"[0..2] == "ab" && "cd"[0..2] == "cd";
  }

  lemma {:induction false} FailedCall(config: Config, state: State)
    requires config.start == "ab" && config.end == "cd" && config.parser("").None? && state == State(false, "", 0, true)
    ensures Scan(config, state, "abcd") == Extracted("abcd", [], state)
  {
    hide Scan, Find;
    StartFirst();
    Outside(config, state, "abcd");
    assert "abcd"[0 + |config.start|..] == "cd" && "abcd"[..0] == "";
    Inside(config, Begun(state), "cd");
    assert "cd"[..0] == "" && "cd"[0 + |config.end|..] == "" && Begun(state).text + "" == "";
    var closed := Close(config, Begun(state), "");
    assert closed == Extracted("abcd", [], state);
    ScanNothing(config, closed.state, "");
    assert "abcd" + "" == "abcd" && "" + "abcd" == "abcd";
  }

  lemma {:induction false} CutStream(config: Config, state: State)
    requires config.start == "ab" && config.end == "cd" && state == State(false, "", 0, true)
    ensures Stream(config, state, ["a", "bcd"]) == Extracted("abcd", [], state)
  {
    hide Scan, Find;
    Outside(config, state, "a");
    NoStart("a");
    NoStart("bcd");
    Outside(config, state, "bcd");
    assert ["a", "bcd"][..1] == ["a"] && ["a"][..0] == [];
    assert "a" + "bcd" == "abcd" && "" + "a" == "a";
    assert Stream(config, state, ["a"]) == Extracted("a", [], state);
  }

  lemma {:induction false} NoStart(s: string)
    requires s == "a" || s == "bcd"
    ensures Find(s, "ab", 0) == None
  {
    forall i: int
      ensures !At(s, "ab", i)
    {
      if 0 <= i && i + 2 <= |s| {
        assert s[i..i + 2][0] == s[i];
      }
    }
  }
}
