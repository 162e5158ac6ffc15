// The sequencer followed symbolically: whose original value each location ends with.
module MoveOrigins {
  import opened Wrappers
  import opened Alloc
  import opened Machine
  import opened ParallelMoves
  import opened ParallelCopy

  // For a location not listed, its own.
  type Origins = map<MoveLocation, MoveLocation>

  function From(o: Origins, l: MoveLocation): MoveLocation {
    if l in o then o[l] else l
  }

  function AfterMove(m: Move, temp: PhysReg, o: Origins): Origins {
    (if m.src.OnStack? then o[InReg(temp) := From(o, m.src)] else o)[m.dst := From(o, m.src)]
  }

  function AfterBreaking(c: Context, m: Move, o: Origins): Origins {
    AfterMove(m, c.temporary2, o[InReg(c.temporary) := From(o, m.dst)])
  }

  function Follow(c: Context, moves: seq<Move>, o: Origins): Origins
    decreases |moves|
  {
    if moves == [] then o
    else
      match FirstReady(moves, 0)
      case Some(i) => Follow(c, Remove(moves, i), AfterMove(moves[i], c.temporary, o))
      case None =>
        Follow(c, Redirect(moves[1..], moves[0].dst, InReg(c.temporary)), AfterBreaking(c, moves[0], o))
  }

  // ---------- the machine follows ----------

  ghost predicate Tracks(c: Context, d: Data, e: Data, o: Origins) {
    Get(e, Rbp) == Get(d, Rbp) && forall l :: Val(c, e, l) == Val(c, d, From(o, l))
  }

  lemma MoveTracks(c: Context, m: Move, temp: PhysReg, d: Data, mid: Data, o: Origins)
    requires Tracks(c, d, mid, o) && m.dst != InReg(temp)
    requires temp == c.temporary || temp == c.temporary2
    ensures Tracks(c, d, Exec(MoveCode(c, m, temp), mid), AfterMove(m, temp, o))
  {
    MoveEffect(c, m, temp, mid);
    var e := Exec(MoveCode(c, m, temp), mid);
    assert Get(e, Rbp) == Get(d, Rbp);
    forall l
      ensures Val(c, e, l) == Val(c, d, From(AfterMove(m, temp, o), l))
    {
      MoveTracksAt(c, m, temp, d, mid, o, l);
    }
  }

  lemma MoveTracksAt(c: Context, m: Move, temp: PhysReg, d: Data, mid: Data, o: Origins, l: MoveLocation)
    requires Tracks(c, d, mid, o) && m.dst != InReg(temp)
    requires temp == c.temporary || temp == c.temporary2
    ensures Val(c, Exec(MoveCode(c, m, temp), mid), l) == Val(c, d, From(AfterMove(m, temp, o), l))
  {
    MoveEffect(c, m, temp, mid);
    assert Val(c, mid, m.src) == Val(c, d, From(o, m.src));
    assert Val(c, mid, l) == Val(c, d, From(o, l));
    if l != m.dst && l != InReg(temp) {
      assert Val(c, Exec(MoveCode(c, m, temp), mid), l) == Val(c, mid, l);
    }
  }

  lemma SaveTracks(c: Context, dst: MoveLocation, d: Data, mid: Data, o: Origins)
    requires Tracks(c, d, mid, o) && dst != InReg(c.temporary)
    ensures Tracks(c, d, Exec(SaveCode(c, dst), mid), o[InReg(c.temporary) := From(o, dst)])
  {
    SaveEffect(c, dst, mid);
    var e := Exec(SaveCode(c, dst), mid);
    forall l
      ensures Val(c, e, l) == Val(c, d, From(o[InReg(c.temporary) := From(o, dst)], l))
    {
      if l != InReg(c.temporary) {
        assert Val(c, e, l) == Val(c, mid, l);
      }
    }
  }

  lemma {:induction false} SequenceTracks(c: Context, moves: seq<Move>, d: Data, mid: Data, o: Origins)
    requires Tracks(c, d, mid, o) && forall m :: m in moves ==> !IsTemporary(c, m.dst)
    ensures Tracks(c, d, Exec(Sequence(c, moves), mid), Follow(c, moves, o))
    decreases |moves|
  {
    if moves != [] {
      match FirstReady(moves, 0)
      case Some(i) =>
        var rest := Remove(moves, i);
        ExecConcat(MoveCode(c, moves[i], c.temporary), Sequence(c, rest), mid);
        MoveTracks(c, moves[i], c.temporary, d, mid, o);
        SequenceTracks(c, rest, d, Exec(MoveCode(c, moves[i], c.temporary), mid), AfterMove(moves[i], c.temporary, o));
      case None =>
        var rest := Redirect(moves[1..], moves[0].dst, InReg(c.temporary));
        assert forall k :: 0 <= k < |rest| ==> rest[k].dst == moves[k + 1].dst;
        ExecConcat(BreakCode(c, moves[0]), Sequence(c, rest), mid);
        BreakTracks(c, moves[0], d, mid, o);
        SequenceTracks(c, rest, d, Exec(BreakCode(c, moves[0]), mid), AfterBreaking(c, moves[0], o));
    }
  }

  lemma BreakTracks(c: Context, m: Move, d: Data, mid: Data, o: Origins)
    requires Tracks(c, d, mid, o) && !IsTemporary(c, m.dst)
    ensures Tracks(c, d, Exec(BreakCode(c, m), mid), AfterBreaking(c, m, o))
  {
    ExecConcat(SaveCode(c, m.dst), MoveCode(c, m, c.temporary2), mid);
    SaveTracks(c, m.dst, d, mid, o);
    MoveTracks(c, m, c.temporary2, d, Exec(SaveCode(c, m.dst), mid), o[InReg(c.temporary) := From(o, m.dst)]);
  }

  // After any moves, with repeated destinations or not, l holds the original value of its origin.
  lemma OriginValue(c: Context, moves: seq<Move>, d: Data, l: MoveLocation)
    requires forall m :: m in moves ==> !IsTemporary(c, m.dst)
    ensures Val(c, Exec(Sequence(c, moves), d), l) == Val(c, d, From(Follow(c, moves, map[]), l))
  {
    SequenceTracks(c, moves, d, d, map[]);
  }

  // So l receives the value of s from every state exactly when s is its origin.
  lemma OriginIsExact(c: Context, moves: seq<Move>, l: MoveLocation, s: MoveLocation)
    requires forall m :: m in moves ==> !IsTemporary(c, m.dst)
    ensures (forall d :: Val(c, Exec(Sequence(c, moves), d), l) == Val(c, d, s)) <==>
      From(Follow(c, moves, map[]), l) == s
  {
    var origin := From(Follow(c, moves, map[]), l);
    forall d
      ensures Val(c, Exec(Sequence(c, moves), d), l) == Val(c, d, origin)
    {
      OriginValue(c, moves, d, l);
    }
    MarkedIsOne(c, s, s);
    MarkedIsOne(c, s, origin);
    assert Val(c, Exec(Sequence(c, moves), Marked(c, s)), l) == Val(c, Marked(c, s), origin);
  }
}
