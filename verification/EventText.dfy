/** Events written out as a stream are read back: what each line of a server-sent event contributes. */
module EventText {
  import opened Bytes
  import opened Unicode
  import opened ServerEvents

  // An event as a server writes it: perhaps a name, other lines, and one or more lines of data.
  datatype Message = Message(name: Option<string>, other: seq<string>, data: seq<string>)

  // A comment or another field.
  predicate IsOther(s: string) {
    s != "" && '\n' !in s && !("event:" <= s) && !("data:" <= s)
  }

  // White space, by code point.
  const BLANKS := {
    9, 10, 11, 12, 13, 28, 29, 30, 31, 32, 133, 160, 5760, 8192, 8193, 8194, 8195, 8196, 8197, 8198, 8199, 8200, 8201,
    8202, 8232, 8233, 8239, 8287, 12288}

  lemma BlanksAre(c: char)
    ensures IsSpace(c) <==> c as int in BLANKS
  {
  }

  predicate IsLine(s: string) {
    '\n' !in s && (s != "" ==> s[0] as int !in BLANKS)
  }

  predicate IsName(s: string) {
    IsLine(s) && (s != "" ==> s[|s| - 1] as int !in BLANKS)
  }

  predicate IsMessage(m: Message) {
    && m.data != [] && (forall i :: 0 <= i < |m.data| ==> IsLine(m.data[i]))
    && (forall i :: 0 <= i < |m.other| ==> IsOther(m.other[i])) && (m.name.Some? ==> IsName(m.name.value))
  }

  function DataText(data: seq<string>): (lines: seq<string>)
    ensures |lines| == |data| && forall i :: 0 <= i < |data| ==> lines[i] == "data: " + data[i]
  {
    seq(|data|, i requires 0 <= i < |data| => "data: " + data[i])
  }

  function LinesText(m: Message): seq<string> {
    Head(m) + DataText(m.data)
  }

  function Head(m: Message): seq<string> {
    (if m.name.Some? then ["event: " + m.name.value] else []) + m.other
  }

  // Lines with a line feed between them.
  function Between(lines: seq<string>): string {
    if lines == [] then "" else if |lines| == 1 then lines[0] else lines[0] + "\n" + Between(lines[1..])
  }

  // Every message behind the other, a blank line after each.
  function StreamText(ms: seq<Message>): string {
    if ms == [] then "" else Between(LinesText(ms[0])) + "\n\n" + StreamText(ms[1..])
  }

  // The event a reader should see: the data lines joined, or the end marker.
  function Seen(m: Message): Event {
    var data := Between(m.data);
    if data == "[DONE]" then Event(Some("done"), "[DONE]") else Event(m.name, data)
  }

  function AllSeen(ms: seq<Message>): seq<Event> {
    if ms == [] then [] else [Seen(ms[0])] + AllSeen(ms[1..])
  }

  // ----- lines -----

  predicate AreLines(lines: seq<string>) {
    forall i :: 0 <= i < |lines| ==> '\n' !in lines[i]
  }

  lemma {:induction false} LinesOfBetween(lines: seq<string>)
    requires lines != [] && AreLines(lines)
    ensures Lines(Between(lines)) == lines
  {
    if |lines| == 1 {
      LinesOfOne(lines[0]);
    } else {
      LinesOfBetween(lines[1..]);
      LinesOfJoin(lines[0], Between(lines[1..]));
      LinesOfOne(lines[0]);
      assert lines == [lines[0]] + lines[1..];
    }
  }

  lemma {:induction false} JoinIsBetween(lines: seq<string>)
    ensures JoinLines(lines) == Between(lines)
  {
    if |lines| > 1 {
      JoinFromLeft(lines);
      JoinIsBetween(lines[1..]);
    }
  }

  lemma {:induction false} JoinFromLeft(lines: seq<string>)
    requires |lines| > 1
    ensures JoinLines(lines) == lines[0] + "\n" + JoinLines(lines[1..])
  {
    var n := |lines| - 1;
    if n == 1 {
      assert lines[..1] == [lines[0]] && lines[1..] == [lines[1]];
    } else {
      JoinFromLeft(lines[..n]);
      assert lines[..n][1..] == lines[1..][..n - 1];
      var a, b, c := lines[0], JoinLines(lines[1..][..n - 1]), lines[n];
      assert (a + "\n" + b) + "\n" + c == a + "\n" + (b + "\n" + c);
    }
  }

  // ----- what a line says -----

  lemma DataLineSays(line: string)
    requires IsLine(line)
    ensures var s := "data: " + line; !(EVENT <= s) && DATA <= s && LeftStrip(s[|DATA|..]) == line
  {
    var s := "data: " + line;
    if line != "" {
      BlanksAre(line[0]);
    }
    hide BLANKS;
    assert s[0] == 'd' && s[..5] == DATA;
    assert s[5..] == " " + line && (" " + line)[1..] == line;
    assert LeftStrip(line) == line;
  }

  lemma NameLineSays(name: string)
    requires IsName(name)
    ensures var s := "event: " + name; EVENT <= s && RightStrip(LeftStrip(s[|EVENT|..])) == name
  {
    var s := "event: " + name;
    if name != "" {
      BlanksAre(name[0]);
      BlanksAre(name[|name| - 1]);
    }
    hide BLANKS;
    assert s[..6] == EVENT;
    assert s[6..] == " " + name && (" " + name)[1..] == name;
    assert LeftStrip(name) == name && RightStrip(name) == name;
  }

  lemma DataOfOneMore(front: seq<string>, line: string)
    requires IsLine(line)
    ensures DataLines(front + ["data: " + line]) == DataLines(front) + [line]
    ensures EventType(front + ["data: " + line]) == EventType(front)
  {
    DataLineSays(line);
    hide LeftStrip, RightStrip, IsLine;
    assert (front + ["data: " + line])[..|front|] == front;
  }

  lemma DataTextOfMore(head: seq<string>, data: seq<string>)
    requires data != []
    ensures var n := |data| - 1; head + DataText(data) == head + DataText(data[..n]) + ["data: " + data[n]]
  {
  }

  lemma {:induction false} DataOfLines(head: seq<string>, data: seq<string>)
    requires forall i :: 0 <= i < |data| ==> IsLine(data[i])
    ensures DataLines(head + DataText(data)) == DataLines(head) + data
    ensures EventType(head + DataText(data)) == EventType(head)
  {
    hide DataLines, EventType, IsLine;
    if data == [] {
      assert head + DataText(data) == head && DataLines(head) + data == DataLines(head);
    } else {
      var n := |data| - 1;
      DataOfLines(head, data[..n]);
      DataTextOfMore(head, data);
      DataOfOneMore(head + DataText(data[..n]), data[n]);
      assert DataLines(head) + data == DataLines(head) + data[..n] + [data[n]];
    }
  }

  lemma NameOfLines(name: string)
    requires IsName(name)
    ensures DataLines(["event: " + name]) == [] && EventType(["event: " + name]) == Some(name)
  {
    NameLineSays(name);
    hide LeftStrip, RightStrip;
    assert ["event: " + name][..0] == [];
  }

  lemma {:induction false} OthersSayNothing(head: seq<string>, other: seq<string>)
    requires forall i :: 0 <= i < |other| ==> IsOther(other[i])
    ensures DataLines(head + other) == DataLines(head) && EventType(head + other) == EventType(head)
  {
    hide LeftStrip, RightStrip;
    if other == [] {
      assert head + other == head;
    } else {
      var n := |other| - 1;
      OthersSayNothing(head, other[..n]);
      assert head + other == (head + other[..n]) + [other[n]];
      assert (head + other[..n] + [other[n]])[..|head| + n] == head + other[..n];
      assert IsOther(other[n]);
    }
  }

  lemma MessageSays(m: Message)
    requires IsMessage(m)
    ensures DataLines(LinesText(m)) == m.data && EventType(LinesText(m)) == m.name
  {
    hide IsLine, IsName, LeftStrip, RightStrip, IsOther;
    DataOfLines(Head(m), m.data);
    if m.name.Some? {
      NameOfLines(m.name.value);
      OthersSayNothing(["event: " + m.name.value], m.other);
    } else {
      OthersSayNothing([], m.other);
    }
  }

  // ----- blocks -----

  // Not empty and without a line feed: what each line of a block is.
  predicate AreFilled(lines: seq<string>) {
    AreLines(lines) && forall i :: 0 <= i < |lines| ==> lines[i] != ""
  }

  lemma {:induction false} BlockIsUnbroken(lines: seq<string>)
    requires lines != [] && AreFilled(lines)
    ensures var t := Between(lines); t != "" && t[0] != '\n' && t[|t| - 1] != '\n' && forall j :: !BlankAt(t, j)
  {
    var first, t := lines[0], Between(lines);
    assert forall j :: 0 <= j < |first| ==> first[j] in first;
    if |lines| > 1 {
      BlockIsUnbroken(lines[1..]);
      var rest := Between(lines[1..]);
      assert t == first + "\n" + rest;
      forall j ensures !BlankAt(t, j) {
        assert !BlankAt(rest, j - |first| - 1);
        assert 0 <= j < |first| ==> t[j] == first[j];
        assert j > |first| && j < |t| ==> t[j] == rest[j - |first| - 1];
      }
    }
  }

  lemma LinesAreFilled(m: Message)
    requires IsMessage(m)
    ensures LinesText(m) != [] && AreFilled(LinesText(m))
  {
    var lines := LinesText(m);
    forall i | 0 <= i < |lines| ensures '\n' !in lines[i] && lines[i] != "" {
      var n := if m.name.Some? then 1 else 0;
      if i < n {
        assert lines[i] == "event: " + m.name.value;
      } else if i < n + |m.other| {
        assert lines[i] == m.other[i - n] && IsOther(m.other[i - n]);
      } else {
        var k := i - n - |m.other|;
        assert lines[i] == "data: " + m.data[k];
        assert IsLine(m.data[k]);
      }
    }
  }

  lemma BlockSays(m: Message)
    requires IsMessage(m)
    ensures BlockEvents(Between(LinesText(m))) == [Seen(m)]
  {
    var lines := LinesText(m);
    LinesAreFilled(m);
    var t := Between(lines);
    BlockIsUnbroken(lines);
    LinesOfBetween(lines);
    MessageSays(m);
    JoinIsBetween(m.data);
    assert StripNewlines(t) == t;
    hide Between, LinesText, Lines, EventType, DataLines, JoinLines, StripNewlines, IsMessage;
  }

  lemma BlankAfterBlock(t: string, rest: string)
    requires t != "" && t[|t| - 1] != '\n' && forall j :: !BlankAt(t, j)
    ensures var whole := t + "\n\n" + rest;
      FindBlank(whole) == Some(|t|) && whole[..|t|] == t && whole[|t| + 2..] == rest
  {
    var whole := t + "\n\n" + rest;
    assert BlankAt(whole, |t|);
    forall j | j < |t| ensures !BlankAt(whole, j) {
      assert !BlankAt(t, j);
      assert 0 <= j ==> whole[j] == t[j];
      assert 0 <= j < |t| - 1 ==> whole[j + 1] == t[j + 1];
    }
  }

  /** Every message of a stream is read as its own event, in order: its name is the text behind "event:",
      its data the texts behind "data:" with line feeds between them, other lines say nothing, and "[DONE]" is
      the end marker. */
  lemma {:induction false} MessagesAreRead(ms: seq<Message>)
    requires forall i :: 0 <= i < |ms| ==> IsMessage(ms[i])
    ensures Events(StreamText(ms)) == AllSeen(ms)
  {
    hide Between, LinesText, BlockEvents, IsMessage, FindBlank;
    if ms == [] {
      NothingRead();
    } else {
      MessagesAreRead(ms[1..]);
      var block, rest := Between(LinesText(ms[0])), StreamText(ms[1..]);
      LinesAreFilled(ms[0]);
      BlockIsUnbroken(LinesText(ms[0]));
      BlankAfterBlock(block, rest);
      FirstBlock(block + "\n\n" + rest, |block|);
      BlockSays(ms[0]);
    }
  }

  lemma NothingRead()
    ensures Events("") == []
  {
    NewlineOnly("");
    SingleBlock("");
  }

  /** The same of the bytes a server sends. */
  lemma SentMessagesAreRead(ms: seq<Message>)
    requires forall i :: 0 <= i < |ms| ==> IsMessage(ms[i])
    ensures Events(Decode(Utf8(StreamText(ms)))) == AllSeen(ms)
  {
    Utf8RoundTrip(StreamText(ms));
    MessagesAreRead(ms);
  }
}
