/** The spool of outcomes that could not be written, drained in order. */
module OutcomeSpool {
  // What the reader makes of a raw line: nothing, JSON, or text that does not parse.
  datatype Kind = Blank | Outcome | Malformed

  function Only(kinds: string -> Kind, kind: Kind, lines: seq<string>): seq<string> {
    if lines == [] then []
    else
      var front, last := Only(kinds, kind, lines[..|lines| - 1]), lines[|lines| - 1];
      if kinds(last) == kind then front + [last] else front
  }

  lemma {:induction false} OnlyOfJoin(kinds: string -> Kind, kind: Kind, a: seq<string>, b: seq<string>)
    ensures Only(kinds, kind, a + b) == Only(kinds, kind, a) + Only(kinds, kind, b)
  {
    if b == [] {
      assert a + b == a;
    } else {
      assert (a + b)[..|a + b| - 1] == a + b[..|b| - 1];
      OnlyOfJoin(kinds, kind, a, b[..|b| - 1]);
    }
  }

  lemma {:induction false} OnlyIsPure(kinds: string -> Kind, kind: Kind, other: Kind, lines: seq<string>)
    ensures Only(kinds, other, Only(kinds, kind, lines)) == if kind == other then Only(kinds, kind, lines) else []
  {
    if lines != [] {
      OnlyIsPure(kinds, kind, other, lines[..|lines| - 1]);
      var front, last := Only(kinds, kind, lines[..|lines| - 1]), lines[|lines| - 1];
      if kinds(last) == kind {
        assert (front + [last])[..|front|] == front;
      }
    }
  }

  lemma OnlyOfSuffix(kinds: string -> Kind, lines: seq<string>, n: nat)
    requires n <= |Only(kinds, Outcome, lines)|
    ensures var rest := Only(kinds, Outcome, lines)[n..];
            Only(kinds, Outcome, rest) == rest && Only(kinds, Malformed, rest) == []
  {
    var all := Only(kinds, Outcome, lines);
    assert all == all[..n] + all[n..];
    OnlyIsPure(kinds, Outcome, Outcome, lines);
    OnlyIsPure(kinds, Outcome, Malformed, lines);
    OnlyOfJoin(kinds, Outcome, all[..n], all[n..]);
    OnlyOfJoin(kinds, Malformed, all[..n], all[n..]);
    OnlyShrinks(kinds, Outcome, all[..n]);
    OnlyShrinks(kinds, Outcome, all[n..]);
    OnlyShrinks(kinds, Malformed, all[n..]);
  }

  // A list that loses nothing to the filter is left as it is.
  lemma {:induction false} OnlyShrinks(kinds: string -> Kind, kind: Kind, lines: seq<string>)
    ensures |Only(kinds, kind, lines)| <= |lines|
    ensures |Only(kinds, kind, lines)| == |lines| ==> Only(kinds, kind, lines) == lines
  {
    if lines != [] {
      OnlyShrinks(kinds, kind, lines[..|lines| - 1]);
      assert lines == lines[..|lines| - 1] + [lines[|lines| - 1]];
    }
  }

  class OutcomeSpool {
    const kinds: string -> Kind
    var lines: seq<string>
    var bad: seq<string>
    // Every line ever appended, and every line whose write succeeded.
    ghost var appended: seq<string>
    ghost var written: seq<string>

    /** Nothing is lost, repeated or reordered: the written outcomes followed by the pending ones are
        the appended ones, and likewise for the lines set aside as malformed. */
    ghost predicate Valid()
      reads this
    {
      && written + Only(kinds, Outcome, lines) == Only(kinds, Outcome, appended)
      && bad + Only(kinds, Malformed, lines) == Only(kinds, Malformed, appended)
    }

    constructor (kinds: string -> Kind)
      ensures Valid() && appended == [] && written == [] && this.kinds == kinds
    {
      this.kinds, lines, bad, appended, written := kinds, [], [], [], [];
    }

    method Append(line: string)
      requires Valid()
      modifies this
      ensures Valid() && appended == old(appended) + [line] && written == old(written) && bad == old(bad)
    {
      OnlyOfJoin(kinds, Outcome, lines, [line]);
      OnlyOfJoin(kinds, Malformed, lines, [line]);
      OnlyOfJoin(kinds, Outcome, appended, [line]);
      OnlyOfJoin(kinds, Malformed, appended, [line]);
      lines := lines + [line];
      appended := appended + [line];
    }

    /** One pass in which `successes` writes succeed before the first one fails. It writes that many
        of the pending outcomes, oldest first, or all of them, and keeps exactly the rest. */
    method Drain(successes: nat) returns (drained: nat, skippedBad: nat, pending: nat)
      requires Valid()
      modifies this
      ensures Valid() && appended == old(appended)
      ensures var waiting := Only(kinds, Outcome, old(lines));
              && drained == (if successes < |waiting| then successes else |waiting|)
              && written == old(written) + waiting[..drained] && lines == waiting[drained..]
      ensures bad == old(bad) + Only(kinds, Malformed, old(lines))
      ensures skippedBad == |bad| - |old(bad)| && pending == |lines|
    {
      ghost var waiting := Only(kinds, Outcome, lines);
      var remaining: seq<string>, aside: seq<string>, failed := [], [], false;
      drained := 0;
      ghost var wrote: seq<string> := [];
      for i := 0 to |lines|
        invariant lines == old(lines) && bad == old(bad) && written == old(written) && appended == old(appended)
        invariant wrote + remaining == Only(kinds, Outcome, lines[..i])
        invariant aside == Only(kinds, Malformed, lines[..i])
        invariant drained == |wrote| <= successes
        invariant failed <==> remaining != []
        invariant failed ==> drained == successes
      {
        var raw := lines[i];
        assert lines[..i + 1][..i] == lines[..i];
        match kinds(raw)
        case Blank =>
        case Malformed =>
          aside := aside + [raw];
        case Outcome =>
          if !failed && drained < successes {
            drained := drained + 1;
            wrote := wrote + [raw];
          } else {
            failed := true;
            remaining := remaining + [raw];
          }
      }
      assert lines[..|lines|] == lines;
      assert waiting[..drained] == wrote && waiting[drained..] == remaining;
      OnlyOfSuffix(kinds, lines, drained);
      assert old(written) + waiting == (old(written) + wrote) + remaining;
      lines, bad, written := remaining, bad + aside, written + wrote;
      skippedBad, pending := |aside|, |remaining|;
    }
  }
}
