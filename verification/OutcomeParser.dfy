/** What the parser assembles from the events of a stream: the text, and the tool calls that arrive
    in interleaved pieces. The JSON reading of one event's data is a parameter. */
module OutcomeParser {
  import opened Bytes
  import opened Unicode
  import opened StreamCapture
  import opened ServerEvents

  // What one payload adds, in order. Empty strings stand for absent fields.
  datatype Piece =
    | Text(text: string)
    | ToolPart(index: int, id: string, name: string, arguments: string)

  datatype Slot = Slot(id: string, name: string, arguments: string)

  // What the parser makes of one event's data: text that is not JSON adds nothing, and a payload
  // that is not an object raises, which is None.
  type Reader = string -> Option<seq<Piece>>

  // The pieces of all events; None when one of them raises.
  function PiecesOf(read: Reader, events: seq<Event>): Option<seq<Piece>> {
    if events == [] then Some([])
    else
      var before, last := PiecesOf(read, events[..|events| - 1]), events[|events| - 1];
      if before.None? || last.data == DONE then before
      else
        match read(last.data)
        case None => None
        case Some(pieces) => Some(before.value + pieces)
  }

  // ----- the specification, one output at a time -----

  function Content(pieces: seq<Piece>): string {
    if pieces == [] then ""
    else
      var last := pieces[|pieces| - 1];
      Content(pieces[..|pieces| - 1]) + if last.Text? then last.text else ""
  }

  // The parts of one tool call, whatever comes between them.
  function Parts(pieces: seq<Piece>, index: int): seq<Piece> {
    if pieces == [] then []
    else
      var before, last := Parts(pieces[..|pieces| - 1], index), pieces[|pieces| - 1];
      if last.ToolPart? && last.index == index then before + [last] else before
  }

  function Arguments(parts: seq<Piece>): string {
    if parts == [] then ""
    else
      var last := parts[|parts| - 1];
      Arguments(parts[..|parts| - 1]) + if last.ToolPart? then last.arguments else ""
  }

  // The last name given, and likewise the last id.
  function LastName(parts: seq<Piece>): string {
    if parts == [] then ""
    else
      var last := parts[|parts| - 1];
      if last.ToolPart? && last.name != "" then last.name else LastName(parts[..|parts| - 1])
  }

  function LastId(parts: seq<Piece>): string {
    if parts == [] then ""
    else
      var last := parts[|parts| - 1];
      if last.ToolPart? && last.id != "" then last.id else LastId(parts[..|parts| - 1])
  }

  function SlotOf(pieces: seq<Piece>, index: int): Slot {
    var parts := Parts(pieces, index);
    Slot(LastId(parts), LastName(parts), Arguments(parts))
  }

  // ----- the loop -----

  function Merged(slot: Slot, part: Piece): Slot
    requires part.ToolPart?
  {
    Slot(if part.id != "" then part.id else slot.id, if part.name != "" then part.name else slot.name,
         slot.arguments + part.arguments)
  }

  lemma PartAdds(pieces: seq<Piece>, part: Piece, index: int)
    requires part.ToolPart?
    ensures SlotOf(pieces + [part], index)
            == if part.index == index then Merged(SlotOf(pieces, index), part) else SlotOf(pieces, index)
  {
    assert (pieces + [part])[..|pieces|] == pieces;
    var parts := Parts(pieces, index);
    assert (parts + [part])[..|parts|] == parts;
  }

  lemma TextAdds(pieces: seq<Piece>, text: Piece, index: int)
    requires text.Text?
    ensures Parts(pieces + [text], index) == Parts(pieces, index)
  {
    assert (pieces + [text])[..|pieces|] == pieces;
  }

  /** The accumulated slots hold, index by index, what that index's own parts say in order, however
      the parts of different calls interleave. */
  method Assemble(pieces: seq<Piece>) returns (content: string, slots: map<int, Slot>)
    ensures content == Content(pieces)
    ensures forall index :: index in slots <==> Parts(pieces, index) != []
    ensures forall index :: index in slots ==> slots[index] == SlotOf(pieces, index)
  {
    content, slots := "", map[];
    for i := 0 to |pieces|
      invariant content == Content(pieces[..i])
      invariant Holds(slots, pieces[..i])
    {
      var piece := pieces[i];
      assert pieces[..i + 1] == pieces[..i] + [piece];
      ContentAdds(pieces[..i], piece);
      hide *;
      if piece.Text? {
        HoldsWithText(slots, pieces[..i], piece);
        content := content + piece.text;
      } else {
        var slot := if piece.index in slots then slots[piece.index] else Slot("", "", "");
        HoldsWithPart(slots, pieces[..i], piece);
        slots := slots[piece.index := Merged(slot, piece)];
      }
    }
    assert pieces[..|pieces|] == pieces;
  }

  // Exactly the calls with parts have a slot, and it is what their parts say.
  ghost predicate Holds(slots: map<int, Slot>, pieces: seq<Piece>) {
    && (forall index :: index in slots <==> Parts(pieces, index) != [])
    && (forall index :: index in slots ==> slots[index] == SlotOf(pieces, index))
  }

  lemma ContentAdds(pieces: seq<Piece>, piece: Piece)
    ensures Content(pieces + [piece]) == Content(pieces) + if piece.Text? then piece.text else ""
  {
    assert (pieces + [piece])[..|pieces|] == pieces;
  }

  lemma HoldsWithText(slots: map<int, Slot>, pieces: seq<Piece>, text: Piece)
    requires Holds(slots, pieces) && text.Text?
    ensures Holds(slots, pieces + [text])
  {
    hide Parts, SlotOf;
    forall index
      ensures Parts(pieces + [text], index) == Parts(pieces, index)
        && SlotOf(pieces + [text], index) == SlotOf(pieces, index)
    {
      TextAdds(pieces, text, index);
      SameParts(pieces, pieces + [text], index);
    }
  }

  lemma HoldsWithPart(slots: map<int, Slot>, pieces: seq<Piece>, part: Piece)
    requires Holds(slots, pieces) && part.ToolPart?
    ensures var slot := if part.index in slots then slots[part.index] else Slot("", "", "");
            Holds(slots[part.index := Merged(slot, part)], pieces + [part])
  {
    hide Parts, SlotOf, Merged;
    NoPartsNoSlot(pieces, part.index);
    forall index
      ensures Parts(pieces + [part], index) == [] <==> index != part.index && Parts(pieces, index) == []
      ensures SlotOf(pieces + [part], index)
           == if part.index == index then Merged(SlotOf(pieces, index), part) else SlotOf(pieces, index)
    {
      PartAdds(pieces, part, index);
      PartsAdd(pieces, part, index);
    }
  }

  lemma PartsAdd(pieces: seq<Piece>, part: Piece, index: int)
    requires part.ToolPart?
    ensures Parts(pieces + [part], index) == Parts(pieces, index) + if part.index == index then [part] else []
  {
    assert (pieces + [part])[..|pieces|] == pieces;
  }

  lemma SameParts(a: seq<Piece>, b: seq<Piece>, index: int)
    requires Parts(a, index) == Parts(b, index)
    ensures SlotOf(a, index) == SlotOf(b, index)
  {
  }

  lemma NoPartsNoSlot(pieces: seq<Piece>, index: int)
    ensures Parts(pieces, index) == [] ==> SlotOf(pieces, index) == Slot("", "", "")
  {
  }

  // ----- a prefix of the events gives prefixes of the outputs -----

  lemma {:induction false} PrefixContent(a: seq<Piece>, b: seq<Piece>, index: int)
    requires a <= b
    ensures Content(a) <= Content(b) && Arguments(Parts(a, index)) <= Arguments(Parts(b, index))
    decreases |b|
  {
    if a == b {
    } else {
      var front, last := b[..|b| - 1], b[|b| - 1];
      assert a <= front;
      PrefixContent(a, front, index);
      assert b == front + [last];
      var parts := Parts(front, index);
      assert (parts + [last])[..|parts|] == parts;
    }
  }

  lemma {:induction false} PrefixPieces(read: Reader, a: seq<Event>, b: seq<Event>)
    requires a <= b && PiecesOf(read, b).Some?
    ensures PiecesOf(read, a).Some? && PiecesOf(read, a).value <= PiecesOf(read, b).value
    decreases |b|
  {
    if a == b {
    } else {
      assert a <= b[..|b| - 1];
      PrefixPieces(read, a, b[..|b| - 1]);
    }
  }

  function Outcome(read: Reader, buf: seq<Byte>): Option<seq<Piece>> {
    PiecesOf(read, Events(Decode(buf)))
  }

  /** When a truncated capture ends at a blank line and the whole stream parses without raising, so
      does the capture, and the text and every tool call's arguments assembled from it are beginnings
      of those of the whole stream. */
  lemma CapturedOutcomeIsPrefix(read: Reader, cap: nat, stream: seq<Byte>, index: int)
    requires cap < |stream| && HasBoundary(stream[..cap]) && Outcome(read, stream).Some?
    ensures var part, whole := Outcome(read, Captured(cap, stream)), Outcome(read, stream).value;
            && part.Some? && Content(part.value) <= Content(whole)
            && Arguments(Parts(part.value, index)) <= Arguments(Parts(whole, index))
  {
    CapturedEventsArePrefix(cap, stream);
    hide Content, Arguments, Parts, PiecesOf, Events, Captured;
    PrefixPieces(read, Events(Decode(Captured(cap, stream))), Events(Decode(stream)));
    PrefixContent(Outcome(read, Captured(cap, stream)).value, Outcome(read, stream).value, index);
  }

  // ----- what a slot holds -----

  predicate IsPart(p: Piece, index: int) {
    p.ToolPart? && p.index == index
  }

  // The name of the last part of a call whose name is not empty; empty if there is none.
  ghost predicate IsNamed(pieces: seq<Piece>, index: int, name: string) {
    if name == "" then forall i :: 0 <= i < |pieces| && IsPart(pieces[i], index) ==> pieces[i].name == ""
    else exists i :: 0 <= i < |pieces| && NamedAt(pieces, index, name, i)
  }

  ghost predicate NamedAt(pieces: seq<Piece>, index: int, name: string, i: nat)
    requires i < |pieces|
  {
    && IsPart(pieces[i], index) && pieces[i].name == name
    && forall j :: i < j < |pieces| && IsPart(pieces[j], index) ==> pieces[j].name == ""
  }

  lemma NamedGoesOn(front: seq<Piece>, last: Piece, index: int, name: string)
    requires IsNamed(front, index, name)
    ensures IsNamed(front + [last], index, if IsPart(last, index) && last.name != "" then last.name else name)
  {
    var pieces := front + [last];
    if IsPart(last, index) && last.name != "" {
      assert NamedAt(pieces, index, last.name, |front|);
    } else if name != "" {
      var i :| 0 <= i < |front| && NamedAt(front, index, name, i);
      assert pieces[i] == front[i];
      assert NamedAt(pieces, index, name, i);
    }
  }

  lemma NothingNamed(index: int)
    ensures IsNamed([], index, SlotOf([], index).name)
  {
  }

  // The id of the last part of a call whose id is not empty; empty if there is none.
  ghost predicate IsWithId(pieces: seq<Piece>, index: int, id: string) {
    if id == "" then forall i :: 0 <= i < |pieces| && IsPart(pieces[i], index) ==> pieces[i].id == ""
    else exists i :: 0 <= i < |pieces| && WithIdAt(pieces, index, id, i)
  }

  ghost predicate WithIdAt(pieces: seq<Piece>, index: int, id: string, i: nat)
    requires i < |pieces|
  {
    && IsPart(pieces[i], index) && pieces[i].id == id
    && forall j :: i < j < |pieces| && IsPart(pieces[j], index) ==> pieces[j].id == ""
  }

  lemma WithIdGoesOn(front: seq<Piece>, last: Piece, index: int, id: string)
    requires IsWithId(front, index, id)
    ensures IsWithId(front + [last], index, if IsPart(last, index) && last.id != "" then last.id else id)
  {
    var pieces := front + [last];
    if IsPart(last, index) && last.id != "" {
      assert WithIdAt(pieces, index, last.id, |front|);
    } else if id != "" {
      var i :| 0 <= i < |front| && WithIdAt(front, index, id, i);
      assert pieces[i] == front[i];
      assert WithIdAt(pieces, index, id, i);
    }
  }

  lemma NothingWithId(index: int)
    ensures IsWithId([], index, SlotOf([], index).id)
  {
  }

  lemma SlotStep(front: seq<Piece>, last: Piece, index: int)
    ensures var before, after := SlotOf(front, index), SlotOf(front + [last], index);
      && after.name == (if IsPart(last, index) && last.name != "" then last.name else before.name)
      && after.id == (if IsPart(last, index) && last.id != "" then last.id else before.id)
  {
    assert (front + [last])[..|front|] == front;
    var parts := Parts(front, index);
    assert (parts + [last])[..|parts|] == parts;
  }

  /** A call's name and id are those of its last parts with a name and with an id. */
  lemma {:induction false} SlotNames(pieces: seq<Piece>, index: int)
    ensures IsNamed(pieces, index, SlotOf(pieces, index).name) && IsWithId(pieces, index, SlotOf(pieces, index).id)
    decreases |pieces|
  {
    hide IsNamed, IsWithId, SlotOf;
    if pieces == [] {
      NothingNamed(index);
      NothingWithId(index);
    } else {
      var front, last := pieces[..|pieces| - 1], pieces[|pieces| - 1];
      SlotNames(front, index);
      SlotStep(front, last, index);
      NamedGoesOn(front, last, index, SlotOf(front, index).name);
      WithIdGoesOn(front, last, index, SlotOf(front, index).id);
      assert pieces == front + [last];
    }
  }

  /** Texts and arguments are strung together in the order of their pieces; a piece of another call adds
      nothing. */
  lemma PiecesAdd(pieces: seq<Piece>, last: Piece, index: int)
    ensures Content([]) == "" && SlotOf([], index).arguments == ""
    ensures Content(pieces + [last]) == Content(pieces) + if last.Text? then last.text else ""
    ensures SlotOf(pieces + [last], index).arguments
      == SlotOf(pieces, index).arguments + if IsPart(last, index) then last.arguments else ""
  {
    assert (pieces + [last])[..|pieces|] == pieces;
    var parts := Parts(pieces, index);
    assert (parts + [last])[..|parts|] == parts;
    assert Arguments(parts) + "" == Arguments(parts);
  }

  /** The pieces of a stream are those of its events in order, without the end marker; one event that cannot be
      read leaves no outcome. */
  lemma PiecesOfMore(read: Reader, events: seq<Event>, last: Event)
    ensures PiecesOf(read, []) == Some([])
    ensures PiecesOf(read, events + [last]) ==
      if PiecesOf(read, events) == None then None
      else if last.data == "[DONE]" then PiecesOf(read, events)
      else if read(last.data) == None then None
      else Some(PiecesOf(read, events).value + read(last.data).value)
  {
    assert (events + [last])[..|events|] == events;
  }
}
