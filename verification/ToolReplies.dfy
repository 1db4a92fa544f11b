/** What a reply is made of, and that extraction takes it apart again: text, calls, indices. */
module ToolReplies {
  import opened Options
  import opened ToolCalls

  /** Plain text, and then the text of one call between its markers. */
  datatype Item = Item(plain: string, call: string)

  /** A reply as the model writes it. */
  function Written(config: Config, items: seq<Item>): string {
    if items == [] then ""
    else items[0].plain + config.start + items[0].call + config.end + Written(config, items[1..])
  }

  /** No start marker begins in the plain text, and no end marker in the text of the call. */
  ghost predicate Clean(config: Config, item: Item) {
    && (forall i :: 0 <= i < |item.plain| ==> !At(item.plain + config.start, config.start, i))
    && (forall i :: 0 <= i < |item.call| ==> !At(item.call + config.end, config.end, i))
  }

  function CallsOf(config: Config, text: string): seq<Call> {
    match config.parser(text) case Some(calls) => calls case None => []
  }

  /** The text of a call that does not parse comes out again between its markers. */
  function TextOf(config: Config, text: string): string {
    if config.parser(text).None? then config.start + text + config.end else ""
  }

  /** The calls that parse, in order. */
  function Parsed(config: Config, items: seq<Item>): seq<Call> {
    if items == [] then []
    else
      CallsOf(config, items[0].call) + Parsed(config, items[1..])
  }

  /** The plain text, and the calls that do not parse as they were written. */
  function Unparsed(config: Config, items: seq<Item>): string {
    if items == [] then ""
    else
      items[0].plain + TextOf(config, items[0].call) + Unparsed(config, items[1..])
  }

  /** `calls` as reported from an index on: numbered one after the other when streaming, and not at all otherwise. */
  ghost predicate Numbered(config: Config, calls: seq<Call>, index: nat, reported: seq<Reported>) {
    && |reported| == |calls|
    && forall k :: 0 <= k < |calls| ==> reported[k].call == calls[k] && reported[k].index == if config.stream then Some(index + k) else None
  }

  /** A marker that begins nowhere in `a` is found right after it. */
  lemma {:induction false} FoundAfter(a: string, m: string, rest: string)
    requires m != "" && forall i :: 0 <= i < |a| ==> !At(a + m, m, i)
    ensures Find(a + m + rest, m, 0) == Some(|a|)
  {
    var s := a + m + rest;
    assert s[|a|..|a| + |m|] == m && At(s, m, |a|);
    forall i | 0 <= i < |a|
      ensures !At(s, m, i)
    {
      assert !At(a + m, m, i) && s[i..i + |m|] == (a + m)[i..i + |m|];
    }
    assert Find(s, m, 0).Some?;
  }

  /** Up to the start marker the text is plain. */
  lemma {:induction false} Opened(config: Config, item: Item, index: nat, made: bool, rest: string)
    requires config.Valid() && Clean(config, item)
    ensures var x := Scan(config, State(true, "", index, true), item.call + config.end + rest);
            Scan(config, State(false, "", index, made), item.plain + config.start + item.call + config.end + rest) ==
            Extracted(item.plain + x.text, x.calls, x.state)
  {
    hide Scan, Find, At;
    var state, body := State(false, "", index, made), item.call + config.end + rest;
    var s := item.plain + config.start + item.call + config.end + rest;
    assert s == item.plain + config.start + body;
    FoundAfter(item.plain, config.start, body);
    Outside(config, state, s);
    assert s[..|item.plain|] == item.plain && s[|item.plain| + |config.start|..] == body;
    var x := Scan(config, State(true, "", index, true), body);
    assert [] + x.calls == x.calls;
  }

  /** What closing a call adds, whatever follows it. */
  lemma {:induction false} Closed(config: Config, item: Item, index: nat, rest: string)
    requires config.Valid() && Clean(config, item)
    ensures var calls := CallsOf(config, item.call);
            var after := Scan(config, State(false, "", index + (if config.stream then |calls| else 0), true), rest);
            var x := Scan(config, State(true, "", index, true), item.call + config.end + rest);
            && x.text == TextOf(config, item.call) + after.text && x.state == after.state && |x.calls| == |calls| + |after.calls|
            && Numbered(config, calls, index, x.calls[..|calls|]) && x.calls[|calls|..] == after.calls
  {
    hide Scan, Find, At;
    var state, body := State(true, "", index, true), item.call + config.end + rest;
    FoundAfter(item.call, config.end, rest);
    Inside(config, state, body);
    assert body[..|item.call|] == item.call && body[|item.call| + |config.end|..] == rest && "" + item.call == item.call;
    var closed := Close(config, state, item.call);
    var after := Scan(config, closed.state, rest);
    assert (closed.calls + after.calls)[..|closed.calls|] == closed.calls && (closed.calls + after.calls)[|closed.calls|..] == after.calls;
  }

  lemma {:induction false} NumberedConcat(config: Config, a: seq<Call>, b: seq<Call>, index: nat, r: seq<Reported>, cut: nat)
    requires cut <= |r| && Numbered(config, a, index, r[..cut]) && Numbered(config, b, index + if config.stream then |a| else 0, r[cut..])
    ensures Numbered(config, a + b, index, r)
  {
    forall k | 0 <= k < |a + b|
      ensures r[k].call == (a + b)[k] && r[k].index == if config.stream then Some(index + k) else None
    {
      assert k < cut ==> r[..cut][k] == r[k];
      assert k >= cut ==> r[cut..][k - cut] == r[k];
    }
  }

  /**
   * Extraction takes a written reply apart: the text that is not a call comes out in order, every call
   * that parses is reported once with the next index, and a call that does not parse comes out as written.
   */
  lemma {:induction false} TakenApart(config: Config, items: seq<Item>, tail: string, index: nat, made: bool)
    requires config.Valid() && (forall k :: 0 <= k < |items| ==> Clean(config, items[k]))
    requires forall i :: 0 <= i < |tail| ==> !At(tail, config.start, i)
    ensures var x := Scan(config, State(false, "", index, made), Written(config, items) + tail);
            && x.text == Unparsed(config, items) + tail
            && Numbered(config, Parsed(config, items), index, x.calls)
            && x.state == State(false, "", index + (if config.stream then |Parsed(config, items)| else 0), made || items != [])
    decreases |items|
  {
    hide Scan, Find, Clean, Numbered;
    if items == [] {
      NoMarker(config, tail, index, made);
    } else {
      var item, rest := items[0], Written(config, items[1..]) + tail;
      var calls := CallsOf(config, item.call);
      var more := index + if config.stream then |calls| else 0;
      TakenApart(config, items[1..], tail, more, true);
      Opened(config, item, index, made, rest);
      Closed(config, item, index, rest);
      assert Written(config, items) + tail == item.plain + config.start + item.call + config.end + rest;
      var x, after := Scan(config, State(false, "", index, made), Written(config, items) + tail), Scan(config, State(false, "", more, true), rest);
      assert x.text == item.plain + TextOf(config, item.call) + (Unparsed(config, items[1..]) + tail);
      assert item.plain + TextOf(config, item.call) + (Unparsed(config, items[1..]) + tail) == Unparsed(config, items) + tail;
      NumberedConcat(config, calls, Parsed(config, items[1..]), index, x.calls, |calls|);
    }
  }

  lemma {:induction false} NoMarker(config: Config, tail: string, index: nat, made: bool)
    requires config.Valid() && forall i :: 0 <= i < |tail| ==> !At(tail, config.start, i)
    ensures Scan(config, State(false, "", index, made), "" + tail) == Extracted(tail, [], State(false, "", index, made))
    ensures Numbered(config, [], index, [])
  {
    hide Scan;
    assert "" + tail == tail;
    if tail == "" {
      ScanNothing(config, State(false, "", index, made), tail);
    } else {
      Outside(config, State(false, "", index, made), tail);
    }
  }

  /** Streaming a written reply reports the same, when no chunk boundary lies inside a marker that is recognised. */
  lemma StreamedApart(config: Config, items: seq<Item>, tail: string, chunks: seq<string>)
    requires config.Valid() && (forall k :: 0 <= k < |items| ==> Clean(config, items[k]))
    requires forall i :: 0 <= i < |tail| ==> !At(tail, config.start, i)
    requires Joined(chunks) == Written(config, items) + tail && CutsBetween(config, false, chunks)
    ensures var x := Stream(config, State(false, "", 0, false), chunks);
            x.text == Unparsed(config, items) + tail && Numbered(config, Parsed(config, items), 0, x.calls) && x.state.made == (items != [])
  {
    hide Scan, Stream, CutsBetween, Clean, Numbered;
    StreamingIsOneShot(config, State(false, "", 0, false), chunks);
    TakenApart(config, items, tail, 0, false);
  }
}
