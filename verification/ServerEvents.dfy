/** Reading server-sent events out of captured bytes. */
module ServerEvents {
  import opened Bytes
  import opened Unicode
  import opened StreamCapture

  // ----- the string methods the reader uses -----

  predicate BlankAt(t: string, i: int) {
    0 <= i && i + 2 <= |t| && t[i] == '\n' && t[i + 1] == '\n'
  }

  // The leftmost blank line.
  function FindBlank(t: string): (r: Option<nat>)
    ensures r.Some? ==> BlankAt(t, r.value) && forall j :: j < r.value ==> !BlankAt(t, j)
    ensures r.None? ==> forall j :: !BlankAt(t, j)
  {
    if |t| < 2 then None
    else if BlankAt(t, 0) then Some(0)
    else
      assert forall j :: j > 0 && BlankAt(t, j) ==> BlankAt(t[1..], j - 1);
      match FindBlank(t[1..])
      case None => None
      case Some(i) =>
        assert forall j :: 0 <= j < i ==> !BlankAt(t[1..], j);
        Some(i + 1)
  }

  // text.split("\n\n")
  function Blocks(t: string): (r: seq<string>)
    ensures r != []
  {
    match FindBlank(t)
    case None => [t]
    case Some(i) => [t[..i]] + Blocks(t[i + 2..])
  }

  function StripLeft(s: string): (r: string) {
    if s != "" && s[0] == '\n' then StripLeft(s[1..]) else s
  }

  function StripRight(s: string): (r: string) {
    if s != "" && s[|s| - 1] == '\n' then StripRight(s[..|s| - 1]) else s
  }

  // s.strip("\n")
  function StripNewlines(s: string): string {
    StripRight(StripLeft(s))
  }

  // s.split("\n")
  function Lines(s: string): (r: seq<string>)
    ensures r != []
  {
    if s == "" then [""]
    else
      var rest := Lines(s[1..]);
      if s[0] == '\n' then [""] + rest else [[s[0]] + rest[0]] + rest[1..]
  }

  function JoinLines(lines: seq<string>): string {
    if lines == [] then ""
    else if |lines| == 1 then lines[0]
    else JoinLines(lines[..|lines| - 1]) + "\n" + lines[|lines| - 1]
  }

  // str.isspace, for the strip methods
  predicate IsSpace(c: char) {
    var n := c as int;
    || 9 <= n <= 13 || 28 <= n <= 32 || n in {0x85, 0xA0, 0x1680, 0x2028, 0x2029, 0x202F, 0x205F, 0x3000}
    || 0x2000 <= n <= 0x200A
  }

  function LeftStrip(s: string): string {
    if s != "" && IsSpace(s[0]) then LeftStrip(s[1..]) else s
  }

  function RightStrip(s: string): string {
    if s != "" && IsSpace(s[|s| - 1]) then RightStrip(s[..|s| - 1]) else s
  }

  // ----- events -----

  datatype Event = Event(kind: Option<string>, data: string)

  const EVENT := "event:"
  const DATA := "data:"
  const DONE := "[DONE]"

  function EventType(lines: seq<string>): Option<string> {
    if lines == [] then None
    else
      var last := lines[|lines| - 1];
      if EVENT <= last then Some(RightStrip(LeftStrip(last[|EVENT|..]))) else EventType(lines[..|lines| - 1])
  }

  function DataLines(lines: seq<string>): seq<string> {
    if lines == [] then []
    else
      var last := lines[|lines| - 1];
      var before := DataLines(lines[..|lines| - 1]);
      if !(EVENT <= last) && DATA <= last then before + [LeftStrip(last[|DATA|..])] else before
  }

  function EventOfData(kind: Option<string>, data: string): Event {
    if data == DONE then Event(Some("done"), DONE) else Event(kind, data)
  }

  // What one block yields: nothing, or one event.
  function BlockEvents(raw: string): (r: seq<Event>)
    ensures |r| <= 1
  {
    var block := StripNewlines(raw);
    var data := DataLines(Lines(block));
    if block == "" || data == [] then [] else [EventOfData(EventType(Lines(block)), JoinLines(data))]
  }

  function EventsOf(blocks: seq<string>): seq<Event> {
    if blocks == [] then [] else BlockEvents(blocks[0]) + EventsOf(blocks[1..])
  }

  function Events(text: string): seq<Event> {
    EventsOf(Blocks(text))
  }

  method ReadLines(lines: seq<string>) returns (kind: Option<string>, data: seq<string>)
    ensures kind == EventType(lines) && data == DataLines(lines)
  {
    hide LeftStrip, RightStrip;
    kind, data := None, [];
    for i := 0 to |lines|
      invariant kind == EventType(lines[..i])
      invariant data == DataLines(lines[..i])
    {
      var line := lines[i];
      assert lines[..i + 1][..i] == lines[..i];
      if EVENT <= line {
        kind := Some(RightStrip(LeftStrip(line[|EVENT|..])));
      } else if DATA <= line {
        data := data + [LeftStrip(line[|DATA|..])];
      }
    }
    assert lines[..|lines|] == lines;
  }

  method ReadBlock(raw: string) returns (events: seq<Event>)
    ensures events == BlockEvents(raw)
  {
    hide StripNewlines, Lines, EventType, DataLines, JoinLines;
    var block := StripNewlines(raw);
    if block == "" {
      return [];
    }
    var kind, data := ReadLines(Lines(block));
    if data == [] {
      return [];
    }
    var text := JoinLines(data);
    if text == DONE {
      return [Event(Some("done"), DONE)];
    }
    return [Event(kind, text)];
  }

  method IterSseEvents(buf: seq<Byte>) returns (events: seq<Event>)
    ensures events == Events(Decode(buf))
  {
    hide Decode, Blocks, BlockEvents;
    var blocks := Blocks(Decode(buf));
    events := [];
    for i := 0 to |blocks|
      invariant events + EventsOf(blocks[i..]) == EventsOf(blocks)
    {
      assert blocks[i..][1..] == blocks[i + 1..];
      var found := ReadBlock(blocks[i]);
      events := events + found;
    }
  }

  // ----- a truncated capture reads as a prefix -----

  // Text that ends where a block ends. After splitting, a run of three newlines leaves a lone one.
  predicate Complete(t: string) {
    t == "" || t == "\n" || BlankAt(t, |t| - 2)
  }

  lemma NewlineOnly(s: string)
    ensures BlockEvents("") == [] && BlockEvents("\n" + s) == BlockEvents(s)
  {
    assert ("\n" + s)[1..] == s;
  }

  lemma SingleBlock(t: string)
    requires FindBlank(t).None?
    ensures Events(t) == BlockEvents(t)
  {
    hide BlockEvents;
    assert Blocks(t)[1..] == [];
    assert BlockEvents(t) + EventsOf([]) == BlockEvents(t);
  }

  lemma FirstBlock(t: string, i: nat)
    requires FindBlank(t) == Some(i)
    ensures Events(t) == BlockEvents(t[..i]) + Events(t[i + 2..])
  {
    hide BlockEvents;
    assert Blocks(t)[1..] == Blocks(t[i + 2..]);
  }

  lemma {:induction false} EventsOfCompleteText(t: string, rest: string)
    requires Complete(t)
    ensures Events(t) <= Events(t + rest)
    ensures FindBlank(rest).None? && !("\n" <= rest) ==> Events(t + rest) == Events(t) + BlockEvents(rest)
  {
    hide BlockEvents, Events, Blocks;
    var whole := t + rest;
    if t == "" {
      NewlineOnly(rest);
      assert whole == rest;
      SingleBlock(t);
      if FindBlank(rest).None? {
        SingleBlock(whole);
      }
    } else if t == "\n" {
      NewlineOnly("");
      NewlineOnly(rest);
      assert whole == "\n" + rest && "\n" + "" == "\n";
      SingleBlock(t);
      if FindBlank(rest).None? && !("\n" <= rest) {
        assert forall j :: j > 0 && BlankAt(whole, j) ==> BlankAt(rest, j - 1);
        assert !BlankAt(whole, 0);
        SingleBlock(whole);
      }
    } else {
      var i := FindBlank(t).value;
      assert BlankAt(whole, i);
      assert forall j :: j < i && BlankAt(whole, j) ==> BlankAt(t, j);
      assert FindBlank(whole) == Some(i);
      var tail := t[i + 2..];
      assert |tail| >= 2 ==> tail[|tail| - 2] == t[|t| - 2] && tail[|tail| - 1] == t[|t| - 1];
      assert |tail| == 1 ==> tail[0] == t[|t| - 1];
      EventsOfCompleteText(tail, rest);
      assert whole[..i] == t[..i] && whole[i + 2..] == tail + rest;
      FirstBlock(t, i);
      FirstBlock(whole, i);
    }
  }

  lemma DecodeEndsBlank(front: seq<Byte>, rest: seq<Byte>)
    ensures Decode(front + [LF, LF] + rest) == Decode(front) + "\n\n" + Decode(rest)
  {
    hide Decode;
    DecodeSplitsAtLineFeed(front, [LF] + rest);
    assert front + [LF] + ([LF] + rest) == front + [LF, LF] + rest;
    DecodeOfLineFeed(rest);
    assert Decode(front) + "\n" + ("\n" + Decode(rest)) == Decode(front) + "\n\n" + Decode(rest);
  }

  lemma DecodeOfLineFeed(rest: seq<Byte>)
    ensures Decode([LF] + rest) == "\n" + Decode(rest)
  {
    NothingDecoded();
    hide Decode;
    DecodeSplitsAtLineFeed([], rest);
    assert [] + [LF] + rest == [LF] + rest;
    assert "" + "\n" + Decode(rest) == "\n" + Decode(rest);
  }

  lemma NothingDecoded()
    ensures Decode([]) == ""
  {
  }

  // ----- decoding keeps blank lines where they are -----

  lemma {:induction false} DecodeWithoutLineFeed(a: seq<Byte>)
    requires LF !in a
    ensures '\n' !in Decode(a)
  {
    if a != [] {
      var d := DecodeStep(a);
      assert a[0] != LF;
      assert d.c != '\n';
      DecodeWithoutLineFeed(a[d.width..]);
    }
  }

  function FirstLineFeed(b: seq<Byte>): (i: nat)
    ensures i <= |b| && LF !in b[..i]
    ensures i < |b| ==> b[i] == LF
  {
    if b == [] || b[0] == LF then 0
    else
      var i := FirstLineFeed(b[1..]);
      assert b[..i + 1] == [b[0]] + b[1..][..i];
      i + 1
  }

  ghost predicate Unbroken(t: string) {
    forall j :: !BlankAt(t, j)
  }

  ghost predicate UnbrokenBytes(b: seq<Byte>) {
    forall j :: !BoundaryAt(b, j)
  }

  lemma JoinUnbroken(x: string, y: string)
    requires x != "" && '\n' !in x && Unbroken("\n" + y)
    ensures Unbroken("\n" + (x + ("\n" + y)))
  {
    var t, rest := "\n" + (x + ("\n" + y)), "\n" + y;
    assert t[|x| + 1..] == rest;
    forall j ensures !BlankAt(t, j) {
      assert 0 < j <= |x| ==> t[j] == x[j - 1] && x[j - 1] in x;
      assert j == 0 ==> t[1] == x[0] && x[0] in x;
      assert !BlankAt(rest, j - |x| - 1);
    }
  }

  lemma SplitUnbroken(a: seq<Byte>, rest: seq<Byte>)
    requires UnbrokenBytes([LF] + (a + [LF] + rest))
    ensures a != [] && UnbrokenBytes([LF] + rest)
  {
    var b := [LF] + (a + [LF] + rest);
    assert a == [] ==> BoundaryAt(b, 0);
    assert b[|a| + 1..] == [LF] + rest;
    assert forall j :: BoundaryAt([LF] + rest, j) ==> BoundaryAt(b, j + |a| + 1);
  }

  lemma LineUnbroken(x: string)
    requires '\n' !in x
    ensures Unbroken("\n" + x)
  {
    assert forall j :: 0 <= j < |x| ==> x[j] in x;
  }

  lemma {:induction false} DecodeKeepsUnbroken(b: seq<Byte>)
    requires UnbrokenBytes([LF] + b)
    ensures Unbroken("\n" + Decode(b))
    decreases |b|
  {
    hide UnbrokenBytes, Unbroken, FirstLineFeed, DecodeStep;
    var i := FirstLineFeed(b);
    var a := b[..i];
    DecodeWithoutLineFeed(a);
    if i == |b| {
      assert a == b;
      LineUnbroken(Decode(b));
    } else {
      var rest := b[i + 1..];
      assert b == a + [LF] + rest;
      SplitUnbroken(a, rest);
      DecodeKeepsUnbroken(rest);
      DecodeSplitsAtLineFeed(a, rest);
      assert Decode(b) == Decode(a) + ("\n" + Decode(rest));
      JoinUnbroken(Decode(a), Decode(rest));
    }
  }

  lemma TailUnbroken(b: seq<Byte>, last: nat)
    requires BoundaryAt(b, last) && forall j :: last < j ==> !BoundaryAt(b, j)
    ensures UnbrokenBytes([LF] + b[last + 2..])
  {
    var tail := [LF] + b[last + 2..];
    assert tail == b[last + 1..];
    assert forall j :: BoundaryAt(tail, j) ==> BoundaryAt(b, j + last + 1);
  }

  // The events up to a blank line, in whatever follows it.
  lemma EventsAfterBlank(front: seq<Byte>, rest: seq<Byte>)
    ensures Events(Decode(front) + "\n\n") <= Events(Decode(front + [LF, LF] + rest))
    ensures rest == [] ==> Events(Decode(front) + "\n\n") == Events(Decode(front + [LF, LF] + rest))
    ensures Unbroken("\n" + Decode(rest)) ==>
      Events(Decode(front + [LF, LF] + rest)) == Events(Decode(front) + "\n\n") + BlockEvents(Decode(rest))
  {
    hide Events, Decode;
    DecodeEndsBlank(front, rest);
    var t, text := Decode(front) + "\n\n", Decode(rest);
    EventsOfCompleteText(t, text);
    assert rest == [] ==> t + text == t by { NothingDecoded(); }
    var lead := "\n" + text;
    if Unbroken(lead) {
      assert forall j :: BlankAt(text, j) ==> BlankAt(lead, j + 1);
      assert "\n" <= text ==> BlankAt(lead, 0);
    }
  }

  // The three ways on from the blank line a capture ends at: stop, up to the cap, the whole stream.
  lemma CutAtBlank(cap: nat, stream: seq<Byte>) returns (front: seq<Byte>, tail: seq<Byte>, rest: seq<Byte>)
    requires cap < |stream| && HasBoundary(stream[..cap])
    ensures Captured(cap, stream) == front + [LF, LF] + []
    ensures stream[..cap] == front + [LF, LF] + tail
    ensures stream == front + [LF, LF] + rest
    ensures tail == stream[|Captured(cap, stream)|..cap]
    ensures UnbrokenBytes([LF] + tail)
  {
    hide LastBoundary;
    var fits := stream[..cap];
    var last := LastBoundary(fits);
    front, tail, rest := fits[..last], fits[last + 2..], stream[last + 2..];
    TailUnbroken(fits, last);
  }

  /** When a truncated capture ends at a blank line, the events read from it are the first events
      of the full stream, and all but at most one of the events read from the bytes that fitted. */
  lemma CapturedEventsArePrefix(cap: nat, stream: seq<Byte>)
    requires cap < |stream| && HasBoundary(stream[..cap])
    ensures Events(Decode(Captured(cap, stream))) <= Events(Decode(stream))
    ensures var lost := BlockEvents(Decode(stream[|Captured(cap, stream)|..cap]));
            |lost| <= 1 && Events(Decode(stream[..cap])) == Events(Decode(Captured(cap, stream))) + lost
  {
    hide *;
    var front, tail, rest := CutAtBlank(cap, stream);
    DecodeKeepsUnbroken(tail);
    EventsAfterBlank(front, []);
    EventsAfterBlank(front, tail);
    EventsAfterBlank(front, rest);
  }

  // ----- without a blank line -----

  lemma {:induction false} LinesOfJoin(u: string, v: string)
    ensures Lines(u + "\n" + v) == Lines(u) + Lines(v)
  {
    var t := u + "\n" + v;
    if u == "" {
      assert t[1..] == v;
    } else {
      assert t[1..] == u[1..] + "\n" + v;
      LinesOfJoin(u[1..], v);
    }
  }

  lemma DataLinesOfMore(lines: seq<string>)
    ensures DataLines(lines + ["data: x"]) == DataLines(lines) + ["x"]
  {
    var more := "data: x";
    assert (lines + [more])[..|lines|] == lines;
    assert more[0] == 'd' && more[..5] == DATA;
    assert LeftStrip(more[5..]) == "x" by {
      assert more[5..][1..] == "x";
    }
  }

  lemma {:induction false} StripRightKeeps(s: string)
    requires s != "" && s[|s| - 1] != '\n'
    ensures StripRight(s) == s
  {
  }

  lemma {:induction false} StripOfMore(q: string)
    requires StripLeft(q) != ""
    ensures StripLeft(q + "\ndata: x") == StripLeft(q) + "\ndata: x"
  {
    if q[0] == '\n' {
      assert (q + "\ndata: x")[1..] == q[1..] + "\ndata: x";
      StripOfMore(q[1..]);
    }
  }

  lemma StripRightAppended(s: string)
    ensures StripRight(s + "\n") == StripRight(s)
  {
    assert (s + "\n")[..|s|] == s;
  }

  lemma {:induction false} TrailingNewline(q: string)
    ensures StripNewlines(q + "\n") == StripNewlines(q)
  {
    if q == "" {
      assert q + "\n" == "\n" && "\n"[1..] == "";
    } else if q[0] == '\n' {
      assert (q + "\n")[1..] == q[1..] + "\n";
      TrailingNewline(q[1..]);
    } else {
      StripRightAppended(q);
    }
  }

  lemma {:induction false} LinesOfOne(s: string)
    requires '\n' !in s
    ensures Lines(s) == [s]
  {
    if s != "" {
      LinesOfOne(s[1..]);
      assert s == [s[0]] + s[1..];
    }
  }

  lemma {:induction false} StripLeftKeepsEnd(q: string)
    requires q != "" && q[|q| - 1] != '\n'
    ensures StripLeft(q) != "" && StripLeft(q)[|StripLeft(q)| - 1] == q[|q| - 1]
  {
    if q[0] == '\n' {
      StripLeftKeepsEnd(q[1..]);
    }
  }

  // One more data line changes the event of a block.
  lemma MoreChangesEvent(q: string)
    requires q != "" && q[|q| - 1] != '\n' && BlockEvents(q) != []
    ensures BlockEvents(q + "\ndata: x") != [] && BlockEvents(q + "\ndata: x")[0] != BlockEvents(q)[0]
  {
    hide StripLeft, StripRight, Lines, DataLines, EventType;
    var more := "data: x";
    StripLeftKeepsEnd(q);
    var block := StripLeft(q);
    StripRightKeeps(block);
    StripOfMore(q);
    StripRightKeeps(block + "\n" + more);
    assert block + "\ndata: x" == block + "\n" + more;
    LinesOfJoin(block, more);
    LinesOfOne(more);
    DataLinesOfMore(Lines(block));
    var data := DataLines(Lines(block));
    assert (data + ["x"])[..|data|] == data;
    assert JoinLines(data + ["x"]) == JoinLines(data) + "\n" + "x";
  }

  lemma DecodeUnbroken(b: seq<Byte>)
    requires UnbrokenBytes(b)
    ensures Unbroken(Decode(b))
  {
    if b != [] && b[0] == LF {
      assert b == [] + [LF] + b[1..] == [LF] + b[1..];
      DecodeSplitsAtLineFeed([], b[1..]);
      DecodeKeepsUnbroken(b[1..]);
      assert Decode(b) == "\n" + Decode(b[1..]);
    } else {
      var lead := [LF] + b;
      assert forall j :: j > 0 && BoundaryAt(lead, j) ==> BoundaryAt(b, j - 1);
      DecodeKeepsUnbroken(b);
      var text := "\n" + Decode(b);
      assert forall j :: BlankAt(Decode(b), j) ==> BlankAt(text, j + 1);
    }
  }

  lemma EventsOfUnbroken(b: seq<Byte>)
    requires UnbrokenBytes(b)
    ensures Events(Decode(b)) == BlockEvents(Decode(b))
  {
    DecodeUnbroken(b);
    SingleBlock(Decode(b));
  }

  predicate ReadsAsPrefix(b: seq<Byte>, stream: seq<Byte>) {
    Events(Decode(b)) <= Events(Decode(stream))
  }

  lemma {:induction false} Utf8WithoutLineFeed(s: string)
    requires '\n' !in s
    ensures LF !in Utf8(s)
  {
    if s != "" {
      assert s[0] != '\n';
      Utf8WithoutLineFeed(s[1..]);
    }
  }

  // The rest of a stream that adds one more data line to the block left open.
  lemma AddDataLine(b: seq<Byte>) returns (p: seq<Byte>, rest: seq<Byte>)
    requires UnbrokenBytes(b)
    ensures b == p || b == p + [LF] + []
    ensures b + rest == p + [LF] + Utf8("data: x")
    ensures UnbrokenBytes(p + [LF] + Utf8("data: x"))
  {
    hide Utf8;
    var line := Utf8("data: x");
    Utf8WithoutLineFeed("data: x");
    p := if b != [] && b[|b| - 1] == LF then b[..|b| - 1] else b;
    rest := if p == b then [LF] + line else line;
    var whole := p + [LF] + line;
    assert forall j :: j + 1 < |p| && BoundaryAt(whole, j) ==> BoundaryAt(b, j);
    assert BoundaryAt(whole, |p| - 1) && p != b ==> BoundaryAt(b, |p| - 1);
    assert forall j :: |p| < j < |whole| ==> whole[j] == line[j - |p| - 1] && whole[j] in line;
    forall j ensures !BoundaryAt(whole, j) {
      assert !BoundaryAt(b, j);
    }
  }

  lemma OpenBlockChanges(b: seq<Byte>) returns (rest: seq<Byte>)
    requires UnbrokenBytes(b) && Events(Decode(b)) != []
    ensures !ReadsAsPrefix(b, b + rest)
  {
    hide Events, BlockEvents, Decode, Utf8, StripNewlines;
    var p;
    p, rest := AddDataLine(b);
    var q, whole := Decode(p), p + [LF] + Utf8("data: x");
    Utf8RoundTrip("data: x");
    DecodeSplitsAtLineFeed(p, Utf8("data: x"));
    assert Decode(whole) == q + "\ndata: x";
    DecodeUnbroken(whole);
    assert q != "" && q[|q| - 1] == '\n' ==> BlankAt(Decode(whole), |q| - 1);
    EventsOfUnbroken(b);
    EventsOfUnbroken(whole);
    DecodeEndsLine(p, b);
    MoreChangesEvent(q);
  }

  // A last line feed changes no event.
  lemma DecodeEndsLine(p: seq<Byte>, b: seq<Byte>)
    requires b == p || b == p + [LF] + []
    ensures BlockEvents(Decode(b)) == BlockEvents(Decode(p))
    ensures BlockEvents(Decode(p)) != [] ==> Decode(p) != ""
  {
    if b != p {
      DecodeSplitsAtLineFeed(p, []);
      assert Decode(b) == Decode(p) + "\n";
      TrailingNewline(Decode(p));
    }
  }

  /** A truncated capture reads as a prefix of every stream it may come from exactly when it holds a
      blank line or no event at all. */
  lemma SafeTruncations(head: seq<Byte>)
    ensures (forall rest :: ReadsAsPrefix(Captured(|head|, head + rest), head + rest))
       <==> (HasBoundary(head) || Events(Decode(head)) == [])
  {
    hide Events, Decode, LastBoundary;
    forall rest | HasBoundary(head) ensures ReadsAsPrefix(Captured(|head|, head + rest), head + rest) {
      assert (head + rest)[..|head|] == head;
      if rest != [] {
        CapturedEventsArePrefix(|head|, head + rest);
      }
    }
    if !HasBoundary(head) {
      forall rest ensures Captured(|head|, head + rest) == head {
        assert (head + rest)[..|head|] == head;
      }
      if Events(Decode(head)) != [] {
        var rest := OpenBlockChanges(head);
        assert !ReadsAsPrefix(Captured(|head|, head + rest), head + rest);
      }
    }
  }
}
