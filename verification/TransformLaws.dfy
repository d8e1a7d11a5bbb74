/** Laws of the key-mapping transform, for every secret, mapping list and iteration order. */
module TransformLaws {
  import opened Text
  import opened Json
  import opened JsonLaws
  import opened Transform

  function Get<V>(m: map<string, V>, k: string): Option<V> {
    if k in m then Some(m[k]) else None
  }

  lemma SameMap<V>(a: map<string, V>, b: map<string, V>)
    requires forall k :: Get(a, k) == Get(b, k)
    ensures a == b
  {
    forall k ensures k in a <==> k in b { assert Get(a, k) == Get(b, k); }
    forall k | k in a ensures a[k] == b[k] { assert Get(a, k) == Get(b, k); }
  }

  // ----- the last event wins

  predicate Touches(move: Move, mode: Mode, k: string) {
    move.target == k || (mode.KeepAll? && move.source == k)
  }

  /** The last move that writes or deletes k, or -1. */
  function LastTouch(moves: seq<Move>, mode: Mode, k: string): (i: int)
    ensures -1 <= i < |moves|
    ensures i >= 0 ==> Touches(moves[i], mode, k)
    ensures forall j :: i < j < |moves| ==> !Touches(moves[j], mode, k)
  {
    if moves == [] then -1
    else if Touches(moves[|moves| - 1], mode, k) then |moves| - 1
    else LastTouch(moves[..|moves| - 1], mode, k)
  }

  /** A key's final state is set by the last move touching it, a delete beating the
      write of the same move; an untouched key is kept or, in transformed_only, absent. */
  lemma {:induction false} LastEventWins<V>(data: map<string, V>, moves: seq<Move>, mode: Mode, k: string)
    requires SourcesPresent(data.Keys, moves)
    ensures Get(Replay(data, moves, mode), k) ==
            var i := LastTouch(moves, mode, k);
            if i < 0 then (if mode.KeepAll? then Get(data, k) else None)
            else if mode.KeepAll? && moves[i].source == k then None
            else Some(data[moves[i].source])
  {
    if moves != [] {
      var rest := moves[..|moves| - 1];
      LastEventWins(data, rest, mode, k);
      var j := LastTouch(rest, mode, k);
      assert j >= 0 ==> rest[j] == moves[j];
    }
  }

  // ----- when keep_all is a simultaneous rename

  function Sources(moves: seq<Move>): set<string> { set i | 0 <= i < |moves| :: moves[i].source }

  /** The untouched originals overridden by what transformed_only produces. */
  function Simultaneous<V>(data: map<string, V>, moves: seq<Move>): map<string, V>
    requires SourcesPresent(data.Keys, moves)
  {
    (data - Sources(moves)) + Replay(data, moves, TransformedOnly)
  }

  ghost predicate Writes(moves: seq<Move>, i: int, k: string) {
    0 <= i < |moves| && moves[i].target == k
  }

  /** Every key that is both source and target is written after its last deletion. */
  ghost predicate Ordered(moves: seq<Move>) {
    forall i, j :: 0 <= j < |moves| && Writes(moves, i, moves[j].source) ==>
                     exists i' :: j < i' && Writes(moves, i', moves[j].source)
  }

  ghost predicate OrderedAt(moves: seq<Move>, k: string) {
    (exists i :: Writes(moves, i, k)) ==>
      forall j :: 0 <= j < |moves| && moves[j].source == k ==> exists i' :: j < i' && Writes(moves, i', k)
  }

  lemma OrderedEverywhere(moves: seq<Move>)
    ensures Ordered(moves) <==> forall k :: OrderedAt(moves, k)
  {
    if forall k :: OrderedAt(moves, k) {
      forall i, j | 0 <= j < |moves| && Writes(moves, i, moves[j].source)
        ensures exists i' :: j < i' && Writes(moves, i', moves[j].source)
      {
        assert OrderedAt(moves, moves[j].source);
      }
    }
  }

  lemma SimultaneousAtIff<V>(data: map<string, V>, moves: seq<Move>, k: string)
    requires SourcesPresent(data.Keys, moves)
    ensures Get(Replay(data, moves, KeepAll), k) == Get(Simultaneous(data, moves), k) <==> OrderedAt(moves, k)
  {
    hide Replay;
    LastEventWins(data, moves, KeepAll, k);
    LastEventWins(data, moves, TransformedOnly, k);
    var w := LastTouch(moves, TransformedOnly, k);
    var t := LastTouch(moves, KeepAll, k);
    if w >= 0 {
      assert Writes(moves, w, k);
      assert t >= w;
    }
  }

  /** keep_all renames simultaneously exactly when every key that is both a source
      and a target is written again after its last deletion. */
  lemma SimultaneousIff<V>(data: map<string, V>, moves: seq<Move>)
    requires SourcesPresent(data.Keys, moves)
    ensures Replay(data, moves, KeepAll) == Simultaneous(data, moves) <==> Ordered(moves)
  {
    OrderedEverywhere(moves);
    forall k
      ensures Get(Replay(data, moves, KeepAll), k) == Get(Simultaneous(data, moves), k) <==> OrderedAt(moves, k)
    {
      SimultaneousAtIff(data, moves, k);
    }
    if Ordered(moves) { SameMap(Replay(data, moves, KeepAll), Simultaneous(data, moves)); }
  }

  /** Under the same condition, and only then, keep_all and transformed_only agree on
      every target. */
  lemma TargetsAgreeIff<V>(data: map<string, V>, moves: seq<Move>)
    requires SourcesPresent(data.Keys, moves)
    ensures (forall i :: 0 <= i < |moves| ==>
               Get(Replay(data, moves, KeepAll), moves[i].target)
                 == Get(Replay(data, moves, TransformedOnly), moves[i].target))
            <==> Ordered(moves)
  {
    hide Replay;
    OrderedEverywhere(moves);
    forall i | 0 <= i < |moves|
      ensures Get(Replay(data, moves, KeepAll), moves[i].target)
              == Get(Replay(data, moves, TransformedOnly), moves[i].target)
              <==> OrderedAt(moves, moves[i].target)
    {
      SimultaneousAtIff(data, moves, moves[i].target);
      LastEventWins(data, moves, TransformedOnly, moves[i].target);
      assert Touches(moves[i], TransformedOnly, moves[i].target);
    }
    forall k | forall i :: 0 <= i < |moves| ==> moves[i].target != k
      ensures OrderedAt(moves, k)
    {}
  }

  ghost predicate DistinctTargets(moves: seq<Move>) {
    forall i, j :: 0 <= i < j < |moves| ==> moves[i].target != moves[j].target
  }

  /** With distinct targets the condition says that no target is the source of the
      same or a later move. */
  lemma OrderedIffNoLaterSource(moves: seq<Move>)
    requires DistinctTargets(moves)
    ensures Ordered(moves) <==> forall i, j :: 0 <= i <= j < |moves| ==> moves[i].target != moves[j].source
  {
    if Ordered(moves) {
      forall i, j | 0 <= i <= j < |moves| ensures moves[i].target != moves[j].source {
        assert Writes(moves, i, moves[i].target);
      }
    }
    if forall i, j :: 0 <= i <= j < |moves| ==> moves[i].target != moves[j].source {
      forall i, j | 0 <= j < |moves| && Writes(moves, i, moves[j].source)
        ensures exists i' :: j < i' && Writes(moves, i', moves[j].source)
      {
        assert j < i;
      }
    }
  }

  /** `A -> A` loses A in keep_all mode. */
  lemma SelfMappingDrops<V>(data: map<string, V>, a: string)
    requires a in data
    ensures Replay(data, [Move(a, a)], KeepAll) == data - {a}
  {}

  lemma ReplayTwo<V>(data: map<string, V>, one: Move, two: Move)
    requires one.source in data && two.source in data
    ensures Replay(data, [one, two], KeepAll)
            == Effect(data, Effect(data, data, one, KeepAll), two, KeepAll)
  {
    assert Replay(data, [], KeepAll) == data;
    ReplayExtend(data, [], one, KeepAll);
    ReplayExtend(data, [one], two, KeepAll);
    hide Replay, Effect;
    assert [] + [one] == [one] && [one] + [two] == [one, two];
  }

  /** `A -> B, B -> C` loses A's value; `B -> C, A -> B` keeps both. */
  lemma ChainOrderMatters<V>(data: map<string, V>, a: string, b: string, c: string)
    requires a in data && b in data && c !in data && a != b
    ensures Replay(data, [Move(a, b), Move(b, c)], KeepAll) == (data - {a, b})[c := data[b]]
    ensures Replay(data, [Move(b, c), Move(a, b)], KeepAll) == (data - {a})[b := data[a]][c := data[b]]
  {
    hide Replay;
    ReplayTwo(data, Move(a, b), Move(b, c));
    ReplayTwo(data, Move(b, c), Move(a, b));
  }

  // ----- the transform said key by key

  /** What each mapping may pick from the secret: the key itself when it is there, else
      any key that agrees with it in lower case, nothing only when no key does. */
  ghost predicate Picks<V>(data: map<string, V>, lower: Lower, mappings: seq<KeyMapping>, picks: seq<Option<string>>) {
    && |picks| == |mappings|
    && forall i :: 0 <= i < |mappings| ==>
         match picks[i]
         case None => forall k :: k in data ==> lower(k) != lower(mappings[i].from)
         case Some(k) =>
           k in data && lower(k) == lower(mappings[i].from) && (mappings[i].from in data ==> k == mappings[i].from)
  }

  /** The mapping, with what it picked, writes t or, in keep_all, deletes it. */
  predicate Hits(mapping: KeyMapping, pick: Option<string>, mode: Mode, t: string) {
    pick.Some? && (mapping.to == t || (mode.KeepAll? && pick.value == t))
  }

  /** The last mapping that does, or -1. */
  function LastHit(mappings: seq<KeyMapping>, picks: seq<Option<string>>, mode: Mode, t: string): (i: int)
    requires |picks| == |mappings|
    ensures -1 <= i < |mappings|
    ensures i >= 0 ==> Hits(mappings[i], picks[i], mode, t)
    ensures forall j :: i < j < |mappings| ==> !Hits(mappings[j], picks[j], mode, t)
  {
    if mappings == [] then -1
    else
      var n := |mappings| - 1;
      if Hits(mappings[n], picks[n], mode, t) then n else LastHit(mappings[..n], picks[..n], mode, t)
  }

  predicate PicksPresent<V>(data: map<string, V>, picks: seq<Option<string>>) {
    forall i :: 0 <= i < |picks| && picks[i].Some? ==> picks[i].value in data
  }

  /** What stands under t in the end. */
  function Ending<V>(data: map<string, V>, mappings: seq<KeyMapping>, picks: seq<Option<string>>, mode: Mode, t: string)
    : Option<V>
    requires |picks| == |mappings| && PicksPresent(data, picks)
  {
    var i := LastHit(mappings, picks, mode, t);
    if i < 0 then (if mode.KeepAll? then Get(data, t) else None)
    else if mode.KeepAll? && picks[i].value == t then None
    else Some(data[picks[i].value])
  }

  function MovesFrom(mappings: seq<KeyMapping>, picks: seq<Option<string>>): seq<Move>
    requires |picks| == |mappings|
  {
    if mappings == [] then []
    else
      var n := |mappings| - 1;
      MovesFrom(mappings[..n], picks[..n]) + if picks[n].Some? then [Move(picks[n].value, mappings[n].to)] else []
  }

  lemma PicksFront<V>(data: map<string, V>, lower: Lower, mappings: seq<KeyMapping>, picks: seq<Option<string>>)
    requires mappings != [] && Picks(data, lower, mappings, picks)
    ensures Picks(data, lower, mappings[..|mappings| - 1], picks[..|picks| - 1])
  {}

  lemma {:induction false} PicksMakeMoves<V>(data: map<string, V>, lower: Lower, mappings: seq<KeyMapping>,
                                             picks: seq<Option<string>>)
    requires Picks(data, lower, mappings, picks)
    ensures MovesOf(data.Keys, lower, mappings, MovesFrom(mappings, picks))
    ensures SourcesPresent(data.Keys, MovesFrom(mappings, picks)) && PicksPresent(data, picks)
    decreases |mappings|
  {
    if mappings != [] {
      var n := |mappings| - 1;
      PicksFront(data, lower, mappings, picks);
      PicksMakeMoves(data, lower, mappings[..n], picks[..n]);
      var rest, moves := MovesFrom(mappings[..n], picks[..n]), MovesFrom(mappings, picks);
      if picks[n].Some? {
        assert moves[..|moves| - 1] == rest;
        assert Resolves(data.Keys, lower, mappings[n].from, picks[n].value);
      } else {
        assert moves == rest;
        assert Unresolved(data.Keys, lower, mappings[n].from);
      }
    }
  }

  lemma {:induction false} MovesMakePicks<V>(data: map<string, V>, lower: Lower, mappings: seq<KeyMapping>,
                                             moves: seq<Move>)
    returns (picks: seq<Option<string>>)
    requires MovesOf(data.Keys, lower, mappings, moves)
    ensures Picks(data, lower, mappings, picks) && MovesFrom(mappings, picks) == moves
    decreases |mappings|
  {
    if mappings == [] {
      picks := [];
    } else {
      var n := |mappings| - 1;
      var front, last := mappings[..n], mappings[n];
      if Unresolved(data.Keys, lower, last.from) {
        var rest := MovesMakePicks(data, lower, front, moves);
        picks := rest + [None];
        assert picks[..n] == rest;
        forall k | k in data ensures lower(k) != lower(last.from) {
          assert !Resolves(data.Keys, lower, last.from, k) && !Resolves(data.Keys, lower, last.from, last.from);
        }
      } else {
        var rest := MovesMakePicks(data, lower, front, moves[..|moves| - 1]);
        picks := rest + [Some(moves[|moves| - 1].source)];
        assert picks[..n] == rest;
        assert moves == moves[..|moves| - 1] + [moves[|moves| - 1]];
      }
    }
  }

  lemma EndingStep<V>(data: map<string, V>, mappings: seq<KeyMapping>, picks: seq<Option<string>>, mode: Mode,
                      t: string)
    requires mappings != [] && |picks| == |mappings| && PicksPresent(data, picks)
    ensures var n := |mappings| - 1;
            var before := Ending(data, mappings[..n], picks[..n], mode, t);
            Ending(data, mappings, picks, mode, t)
            == if picks[n].Some? then Moved(data, before, Move(picks[n].value, mappings[n].to), mode, t) else before
  {}

  lemma ReplayStep<V>(data: map<string, V>, rest: seq<Move>, move: Move, mode: Mode, t: string)
    requires SourcesPresent(data.Keys, rest) && move.source in data
    ensures Get(Replay(data, rest + [move], mode), t) == Moved(data, Get(Replay(data, rest, mode), t), move, mode, t)
  {
    ReplayExtend(data, rest, move, mode);
    hide Replay;
  }

  lemma {:induction false} EndingIsReplay<V>(data: map<string, V>, mappings: seq<KeyMapping>,
                                             picks: seq<Option<string>>, mode: Mode, t: string)
    requires |picks| == |mappings| && PicksPresent(data, picks)
    requires SourcesPresent(data.Keys, MovesFrom(mappings, picks))
    ensures Get(Replay(data, MovesFrom(mappings, picks), mode), t) == Ending(data, mappings, picks, mode, t)
    decreases |mappings|
  {
    if mappings != [] {
      hide Ending, Replay;
      var n := |mappings| - 1;
      var rest := MovesFrom(mappings[..n], picks[..n]);
      assert forall i :: 0 <= i < |rest| ==> rest[i] == MovesFrom(mappings, picks)[i];
      EndingIsReplay(data, mappings[..n], picks[..n], mode, t);
      EndingStep(data, mappings, picks, mode, t);
      if picks[n].Some? {
        ReplayStep(data, rest, Move(picks[n].value, mappings[n].to), mode, t);
      } else {
        assert MovesFrom(mappings, picks) == rest;
      }
    }
  }

  lemma PicksReturn<V>(data: map<string, V>, lower: Lower, mappings: seq<KeyMapping>, mode: Mode,
                       mapped: map<string, V>, picks: seq<Option<string>>)
    requires Picks(data, lower, mappings, picks) && PicksPresent(data, picks)
    requires forall t :: Get(mapped, t) == Ending(data, mappings, picks, mode, t)
    ensures MayReturn(data, lower, mappings, mode, mapped)
  {
    PicksMakeMoves(data, lower, mappings, picks);
    hide MovesOf, Replay, Ending;
    var moves := MovesFrom(mappings, picks);
    forall t ensures Get(mapped, t) == Get(Replay(data, moves, mode), t) {
      EndingIsReplay(data, mappings, picks, mode, t);
    }
    SameMap(mapped, Replay(data, moves, mode));
  }

  /** The objects that may be returned are exactly those in which, for some picks, every
      key ends as the last mapping that writes or deletes it says. */
  lemma ReturnsIff<V>(data: map<string, V>, lower: Lower, mappings: seq<KeyMapping>, mode: Mode, mapped: map<string, V>)
    ensures MayReturn(data, lower, mappings, mode, mapped) <==>
              exists picks :: Picks(data, lower, mappings, picks) && PicksPresent(data, picks)
                              && forall t :: Get(mapped, t) == Ending(data, mappings, picks, mode, t)
  {
    hide MovesOf, Replay, Ending;
    if MayReturn(data, lower, mappings, mode, mapped) {
      var moves :| MovesOf(data.Keys, lower, mappings, moves) && SourcesPresent(data.Keys, moves)
                   && mapped == Replay(data, moves, mode);
      var picks := MovesMakePicks(data, lower, mappings, moves);
      PicksMakeMoves(data, lower, mappings, picks);
      forall t ensures Get(mapped, t) == Ending(data, mappings, picks, mode, t) {
        EndingIsReplay(data, mappings, picks, mode, t);
      }
    }
    if picks :| Picks(data, lower, mappings, picks) && PicksPresent(data, picks)
                && forall t :: Get(mapped, t) == Ending(data, mappings, picks, mode, t) {
      PicksReturn(data, lower, mappings, mode, mapped, picks);
    }
  }

  /** Some key of the secret agrees with `from` in lower case. */
  ghost predicate Found<V>(data: map<string, V>, lower: Lower, from: string) {
    exists k :: k in data && lower(k) == lower(from)
  }

  /** transformed_only returns exactly the targets whose `from` some key agrees with in
      lower case, each with the value that the last such mapping finds: `from` itself if
      it is a key, else some key equal to it in lower case. */
  lemma TransformedOnlyReturns<V>(data: map<string, V>, lower: Lower, mappings: seq<KeyMapping>, mapped: map<string, V>,
                                  t: string)
    requires MayReturn(data, lower, mappings, TransformedOnly, mapped)
    ensures t in mapped <==>
              exists i :: 0 <= i < |mappings| && mappings[i].to == t && Found(data, lower, mappings[i].from)
    ensures t in mapped ==>
              exists i, k ::
                && 0 <= i < |mappings| && mappings[i].to == t
                && (forall j :: i < j < |mappings| && mappings[j].to == t ==> !Found(data, lower, mappings[j].from))
                && k in data && lower(k) == lower(mappings[i].from)
                && (mappings[i].from in data ==> k == mappings[i].from) && mapped[t] == data[k]
  {
    ReturnsIff(data, lower, mappings, TransformedOnly, mapped);
    var picks: seq<Option<string>> :| Picks(data, lower, mappings, picks) && PicksPresent(data, picks)
                 && forall t :: Get(mapped, t) == Ending(data, mappings, picks, TransformedOnly, t);
    hide MayReturn;
    assert Get(mapped, t) == Ending(data, mappings, picks, TransformedOnly, t);
    var i := LastHit(mappings, picks, TransformedOnly, t);
    assert forall j :: 0 <= j < |mappings| ==> (picks[j].Some? <==> Found(data, lower, mappings[j].from));
    assert forall j :: i < j < |mappings| ==> !Hits(mappings[j], picks[j], TransformedOnly, t);
    if i >= 0 {
      var k := picks[i].value;
      assert k in data && lower(k) == lower(mappings[i].from);
    }
  }

  // ----- determinism despite map iteration

  ghost predicate Ambiguous(keys: set<string>, lower: Lower, from: string) {
    exists a, b :: a != b && Resolves(keys, lower, from, a) && Resolves(keys, lower, from, b)
  }

  ghost predicate Unambiguous(keys: set<string>, lower: Lower, mappings: seq<KeyMapping>) {
    forall i :: 0 <= i < |mappings| ==> !Ambiguous(keys, lower, mappings[i].from)
  }

  lemma {:induction false} MovesExist(keys: set<string>, lower: Lower, mappings: seq<KeyMapping>)
    returns (moves: seq<Move>)
    ensures MovesOf(keys, lower, mappings, moves)
  {
    if mappings == [] {
      moves := [];
    } else {
      var rest := MovesExist(keys, lower, mappings[..|mappings| - 1]);
      moves := ExtendRun(keys, lower, mappings, rest);
    }
  }

  /** A run over all but the last mapping goes on. */
  lemma ExtendRun(keys: set<string>, lower: Lower, mappings: seq<KeyMapping>, rest: seq<Move>)
    returns (moves: seq<Move>)
    requires mappings != [] && MovesOf(keys, lower, mappings[..|mappings| - 1], rest)
    ensures MovesOf(keys, lower, mappings, moves)
  {
    var last := mappings[|mappings| - 1];
    if Unresolved(keys, lower, last.from) {
      moves := rest;
    } else {
      var source :| Resolves(keys, lower, last.from, source);
      moves := rest + [Move(source, last.to)];
      assert moves[..|moves| - 1] == rest;
    }
  }

  lemma {:induction false} MovesUnique(keys: set<string>, lower: Lower, mappings: seq<KeyMapping>, one: seq<Move>,
                                       two: seq<Move>)
    requires Unambiguous(keys, lower, mappings)
    requires MovesOf(keys, lower, mappings, one) && MovesOf(keys, lower, mappings, two)
    ensures one == two
    decreases |mappings|
  {
    if mappings != [] {
      var front, last := mappings[..|mappings| - 1], mappings[|mappings| - 1];
      assert !Ambiguous(keys, lower, mappings[|mappings| - 1].from);
      if Unresolved(keys, lower, last.from) {
        MovesUnique(keys, lower, front, one, two);
      } else {
        MovesUnique(keys, lower, front, one[..|one| - 1], two[..|two| - 1]);
        assert one == one[..|one| - 1] + [one[|one| - 1]];
        assert two == two[..|two| - 1] + [two[|two| - 1]];
      }
    }
  }

  /** Without an ambiguous mapping every iteration order returns the same object. */
  lemma ResultUnique<V>(data: map<string, V>, lower: Lower, mappings: seq<KeyMapping>, mode: Mode,
                        one: map<string, V>, two: map<string, V>)
    requires Unambiguous(data.Keys, lower, mappings)
    requires MayReturn(data, lower, mappings, mode, one) && MayReturn(data, lower, mappings, mode, two)
    ensures one == two
  {
    var moves1 :| MovesOf(data.Keys, lower, mappings, moves1) && SourcesPresent(data.Keys, moves1)
                  && one == Replay(data, moves1, mode);
    var moves2 :| MovesOf(data.Keys, lower, mappings, moves2) && SourcesPresent(data.Keys, moves2)
                  && two == Replay(data, moves2, mode);
    MovesUnique(data.Keys, lower, mappings, moves1, moves2);
  }

  // ----- determinism of the returned object

  /** Every run of the mapping deletes k. */
  ghost predicate Drops(keys: set<string>, lower: Lower, mapping: KeyMapping, mode: Mode, k: string) {
    mode.KeepAll? && Resolves(keys, lower, mapping.from, k) && !Ambiguous(keys, lower, mapping.from)
  }

  /** Some run of the mapping deletes k. */
  ghost predicate MayDrop(keys: set<string>, lower: Lower, mapping: KeyMapping, mode: Mode, k: string) {
    mode.KeepAll? && Resolves(keys, lower, mapping.from, k)
  }

  /** Every run of the mapping writes or deletes k. */
  ghost predicate Settles(keys: set<string>, lower: Lower, mapping: KeyMapping, mode: Mode, k: string) {
    Drops(keys, lower, mapping, mode, k) || (mapping.to == k && !Unresolved(keys, lower, mapping.from))
  }

  /** The last mapping that settles k, or -1. */
  ghost function LastSettling(keys: set<string>, lower: Lower, mappings: seq<KeyMapping>, mode: Mode,
                              k: string): (i: int)
    ensures -1 <= i < |mappings|
    ensures i >= 0 ==> Settles(keys, lower, mappings[i], mode, k)
    ensures forall j :: i < j < |mappings| ==> !Settles(keys, lower, mappings[j], mode, k)
  {
    if mappings == [] then -1
    else if Settles(keys, lower, mappings[|mappings| - 1], mode, k) then |mappings| - 1
    else LastSettling(keys, lower, mappings[..|mappings| - 1], mode, k)
  }

  /** The last mapping that settles k deletes it; or it writes k from one key only,
      and none after it may delete k. */
  ghost predicate Determined(keys: set<string>, lower: Lower, mappings: seq<KeyMapping>, mode: Mode, k: string) {
    var i := LastSettling(keys, lower, mappings, mode, k);
    || (i >= 0 && Drops(keys, lower, mappings[i], mode, k))
    || ((i >= 0 ==> !Ambiguous(keys, lower, mappings[i].from))
        && forall j :: i < j < |mappings| ==> !MayDrop(keys, lower, mappings[j], mode, k))
  }

  /** What a last move leaves under k, given what was there. */
  function Moved<V>(data: map<string, V>, before: Option<V>, move: Move, mode: Mode, k: string): Option<V>
    requires move.source in data
  {
    if mode.KeepAll? && move.source == k then None
    else if move.target == k then Some(data[move.source])
    else before
  }

  /** A run whose last mapping resolves ends with one of its candidates. */
  lemma LastMove<V>(data: map<string, V>, lower: Lower, mappings: seq<KeyMapping>, mode: Mode, moves: seq<Move>,
                    k: string)
    returns (rest: seq<Move>, move: Move)
    requires mappings != [] && MovesOf(data.Keys, lower, mappings, moves) && SourcesPresent(data.Keys, moves)
    requires !Unresolved(data.Keys, lower, mappings[|mappings| - 1].from)
    ensures MovesOf(data.Keys, lower, mappings[..|mappings| - 1], rest) && SourcesPresent(data.Keys, rest)
    ensures Resolves(data.Keys, lower, mappings[|mappings| - 1].from, move.source)
            && move.target == mappings[|mappings| - 1].to
    ensures move.source in data
    ensures Get(Replay(data, moves, mode), k) == Moved(data, Get(Replay(data, rest, mode), k), move, mode, k)
  {
    rest, move := moves[..|moves| - 1], moves[|moves| - 1];
  }

  /** Each candidate of the last mapping ends some run. */
  lemma AddMove<V>(data: map<string, V>, lower: Lower, mappings: seq<KeyMapping>, mode: Mode, rest: seq<Move>,
                   source: string, k: string)
    returns (moves: seq<Move>)
    requires mappings != [] && MovesOf(data.Keys, lower, mappings[..|mappings| - 1], rest)
             && SourcesPresent(data.Keys, rest)
    requires Resolves(data.Keys, lower, mappings[|mappings| - 1].from, source)
    ensures MovesOf(data.Keys, lower, mappings, moves) && SourcesPresent(data.Keys, moves)
    ensures source in data
    ensures Get(Replay(data, moves, mode), k)
            == Moved(data, Get(Replay(data, rest, mode), k), Move(source, mappings[|mappings| - 1].to), mode, k)
  {
    hide MovesOf, Replay;
    var n := |mappings| - 1;
    MovesExtend(data, lower, mappings, n, rest, source);
    assert mappings[..n + 1] == mappings;
    moves := rest + [Move(source, mappings[n].to)];
    ReplayExtend(data, rest, Move(source, mappings[n].to), mode);
  }

  /** When the last mapping that settles k deletes it, k is absent after every run. */
  lemma {:induction false} AbsentAlways<V>(data: map<string, V>, lower: Lower, mappings: seq<KeyMapping>,
                                           mode: Mode, moves: seq<Move>, k: string)
    requires MovesOf(data.Keys, lower, mappings, moves) && SourcesPresent(data.Keys, moves)
    requires LastSettling(data.Keys, lower, mappings, mode, k) >= 0
    requires Drops(data.Keys, lower, mappings[LastSettling(data.Keys, lower, mappings, mode, k)], mode, k)
    ensures Get(Replay(data, moves, mode), k) == None
    decreases |mappings|
  {
    var front, last := mappings[..|mappings| - 1], mappings[|mappings| - 1];
    if Unresolved(data.Keys, lower, last.from) {
      AbsentAlways(data, lower, front, mode, moves, k);
    } else {
      var rest, move := LastMove(data, lower, mappings, mode, moves, k);
      if !Settles(data.Keys, lower, last, mode, k) {
        AbsentAlways(data, lower, front, mode, rest, k);
      }
    }
  }

  /** Determined keys end the same in every run. */
  lemma {:induction false} DeterminedAgrees<V>(data: map<string, V>, lower: Lower, mappings: seq<KeyMapping>,
                                               mode: Mode, one: seq<Move>, two: seq<Move>, k: string)
    requires MovesOf(data.Keys, lower, mappings, one) && SourcesPresent(data.Keys, one)
    requires MovesOf(data.Keys, lower, mappings, two) && SourcesPresent(data.Keys, two)
    requires Determined(data.Keys, lower, mappings, mode, k)
    ensures Get(Replay(data, one, mode), k) == Get(Replay(data, two, mode), k)
    decreases |mappings|
  {
    var i := LastSettling(data.Keys, lower, mappings, mode, k);
    if i >= 0 && Drops(data.Keys, lower, mappings[i], mode, k) {
      AbsentAlways(data, lower, mappings, mode, one, k);
      AbsentAlways(data, lower, mappings, mode, two, k);
    } else if mappings != [] {
      hide Replay;
      var front, last := mappings[..|mappings| - 1], mappings[|mappings| - 1];
      if Unresolved(data.Keys, lower, last.from) {
        DeterminedAgrees(data, lower, front, mode, one, two, k);
      } else {
        var rest1, move1 := LastMove(data, lower, mappings, mode, one, k);
        var rest2, move2 := LastMove(data, lower, mappings, mode, two, k);
        assert last == mappings[|mappings| - 1];
        hide MovesOf;
        if !Settles(data.Keys, lower, last, mode, k) {
          DeterminedAgrees(data, lower, front, mode, rest1, rest2, k);
        }
      }
    }
  }

  /** A run that leaves k in place. */
  lemma {:induction false} PresentOnce<V>(data: map<string, V>, lower: Lower, mappings: seq<KeyMapping>, mode: Mode,
                                          k: string)
    returns (moves: seq<Move>)
    requires var i := LastSettling(data.Keys, lower, mappings, mode, k);
             if i < 0 then mode.KeepAll? && k in data else !Drops(data.Keys, lower, mappings[i], mode, k)
    ensures MovesOf(data.Keys, lower, mappings, moves) && SourcesPresent(data.Keys, moves)
    ensures Get(Replay(data, moves, mode), k).Some?
    decreases |mappings|
  {
    if mappings == [] {
      moves := [];
    } else {
      var front, last := mappings[..|mappings| - 1], mappings[|mappings| - 1];
      var rest: seq<Move>;
      if Settles(data.Keys, lower, last, mode, k) {
        rest := MovesExist(data.Keys, lower, front);
        MovesPresent(data.Keys, lower, front, rest);
      } else {
        rest := PresentOnce(data, lower, front, mode, k);
      }
      hide Replay;
      if Unresolved(data.Keys, lower, last.from) {
        moves := rest;
      } else {
        var source :| Resolves(data.Keys, lower, last.from, source) && (mode.KeepAll? ==> source != k);
        moves := AddMove(data, lower, mappings, mode, rest, source, k);
      }
    }
  }

  /** A run that deletes k and leaves it deleted. */
  lemma {:induction false} AbsentOnce<V>(data: map<string, V>, lower: Lower, mappings: seq<KeyMapping>,
                                         mode: Mode, k: string, j: nat)
    returns (moves: seq<Move>)
    requires LastSettling(data.Keys, lower, mappings, mode, k) < j < |mappings|
             && MayDrop(data.Keys, lower, mappings[j], mode, k)
    ensures MovesOf(data.Keys, lower, mappings, moves) && SourcesPresent(data.Keys, moves)
    ensures Get(Replay(data, moves, mode), k) == None
    decreases |mappings|
  {
    var front, last := mappings[..|mappings| - 1], mappings[|mappings| - 1];
    assert !Settles(data.Keys, lower, mappings[|mappings| - 1], mode, k);
    var rest: seq<Move>;
    if j == |mappings| - 1 {
      rest := MovesExist(data.Keys, lower, front);
      MovesPresent(data.Keys, lower, front, rest);
      moves := AddMove(data, lower, mappings, mode, rest, k, k);
    } else {
      rest := AbsentOnce(data, lower, front, mode, k, j);
      hide Replay;
      if Unresolved(data.Keys, lower, last.from) {
        moves := rest;
      } else {
        var source :| Resolves(data.Keys, lower, last.from, source);
        moves := AddMove(data, lower, mappings, mode, rest, source, k);
      }
    }
  }

  /** A secret in which every key holds its own name. */
  function Labels(keys: set<string>): (data: Object)
    ensures data.Keys == keys
  {
    map k | k in keys :: Str(k)
  }

  /** Two runs that write k from two keys, or write and delete it. */
  lemma {:induction false} TwoWrites(keys: set<string>, lower: Lower, mappings: seq<KeyMapping>, mode: Mode, k: string)
    returns (one: seq<Move>, two: seq<Move>)
    requires var i := LastSettling(keys, lower, mappings, mode, k);
             && i >= 0 && Ambiguous(keys, lower, mappings[i].from)
             && forall j :: i < j < |mappings| ==> !MayDrop(keys, lower, mappings[j], mode, k)
    ensures MovesOf(keys, lower, mappings, one) && SourcesPresent(keys, one)
    ensures MovesOf(keys, lower, mappings, two) && SourcesPresent(keys, two)
    ensures Get(Replay(Labels(keys), one, mode), k) != Get(Replay(Labels(keys), two, mode), k)
    decreases |mappings|
  {
    var data := Labels(keys);
    var n := |mappings| - 1;
    var front, last := mappings[..n], mappings[n];
    if Settles(keys, lower, last, mode, k) {
      var rest := MovesExist(keys, lower, front);
      MovesPresent(keys, lower, front, rest);
      var a, b :| a != b && Resolves(keys, lower, last.from, a) && Resolves(keys, lower, last.from, b);
      hide Replay;
      one := AddMove(data, lower, mappings, mode, rest, a, k);
      two := AddMove(data, lower, mappings, mode, rest, b, k);
    } else {
      one, two := TwoWrites(keys, lower, front, mode, k);
      hide Replay;
      if !Unresolved(keys, lower, last.from) {
        var source :| Resolves(keys, lower, last.from, source);
        assert !MayDrop(keys, lower, mappings[n], mode, k);
        one := AddMove(data, lower, mappings, mode, one, source, k);
        two := AddMove(data, lower, mappings, mode, two, source, k);
      }
    }
  }

  /** A key that is not determined ends differently in two runs over the labels. */
  lemma UndeterminedDiffers(keys: set<string>, lower: Lower, mappings: seq<KeyMapping>, mode: Mode, k: string)
    returns (one: seq<Move>, two: seq<Move>)
    requires !Determined(keys, lower, mappings, mode, k)
    ensures MovesOf(keys, lower, mappings, one) && SourcesPresent(keys, one)
    ensures MovesOf(keys, lower, mappings, two) && SourcesPresent(keys, two)
    ensures Get(Replay(Labels(keys), one, mode), k) != Get(Replay(Labels(keys), two, mode), k)
  {
    hide MovesOf, Replay;
    var i := LastSettling(keys, lower, mappings, mode, k);
    if j :| i < j < |mappings| && MayDrop(keys, lower, mappings[j], mode, k) {
      one := PresentOnce(Labels(keys), lower, mappings, mode, k);
      two := AbsentOnce(Labels(keys), lower, mappings, mode, k, j);
    } else {
      one, two := TwoWrites(keys, lower, mappings, mode, k);
    }
  }

  /** Every secret with these keys has one result, whatever the iteration order. */
  ghost predicate Deterministic(keys: set<string>, lower: Lower, mappings: seq<KeyMapping>, mode: Mode) {
    forall data: Object, one, two | data.Keys == keys ::
      MayReturn(data, lower, mappings, mode, one) && MayReturn(data, lower, mappings, mode, two) ==> one == two
  }

  lemma DeterminedResult<V>(data: map<string, V>, lower: Lower, mappings: seq<KeyMapping>, mode: Mode,
                                one: map<string, V>, two: map<string, V>)
    requires forall k :: Determined(data.Keys, lower, mappings, mode, k)
    requires MayReturn(data, lower, mappings, mode, one) && MayReturn(data, lower, mappings, mode, two)
    ensures one == two
  {
    hide Determined, MovesOf, Replay;
    var moves1 :| MovesOf(data.Keys, lower, mappings, moves1) && SourcesPresent(data.Keys, moves1)
                  && one == Replay(data, moves1, mode);
    var moves2 :| MovesOf(data.Keys, lower, mappings, moves2) && SourcesPresent(data.Keys, moves2)
                  && two == Replay(data, moves2, mode);
    forall k ensures Get(one, k) == Get(two, k) {
      DeterminedAgrees(data, lower, mappings, mode, moves1, moves2, k);
    }
    SameMap(one, two);
  }

  /** The returned object never depends on the iteration order exactly when, for every
      key, the last mapping that settles it deletes it, or writes it from one key only
      with no later mapping that may delete it. */
  lemma DeterministicIff(keys: set<string>, lower: Lower, mappings: seq<KeyMapping>, mode: Mode)
    ensures Deterministic(keys, lower, mappings, mode) <==> forall k :: Determined(keys, lower, mappings, mode, k)
  {
    hide Determined, MovesOf, Replay;
    if forall k :: Determined(keys, lower, mappings, mode, k) {
      forall data: Object, one, two
        | data.Keys == keys && MayReturn(data, lower, mappings, mode, one)
          && MayReturn(data, lower, mappings, mode, two)
        ensures one == two
      {
        DeterminedResult(data, lower, mappings, mode, one, two);
      }
    } else {
      var k :| !Determined(keys, lower, mappings, mode, k);
      var moves1, moves2 := UndeterminedDiffers(keys, lower, mappings, mode, k);
      var data := Labels(keys);
      var one, two := Replay(data, moves1, mode), Replay(data, moves2, mode);
      assert data.Keys == keys;
      assert MayReturn(data, lower, mappings, mode, one) && MayReturn(data, lower, mappings, mode, two);
    }
  }

  /** In transformed_only that is: every ambiguous mapping's target is written again by
      a later mapping that resolves. */
  lemma TransformedOnlyDeterministicIff(keys: set<string>, lower: Lower, mappings: seq<KeyMapping>)
    ensures Deterministic(keys, lower, mappings, TransformedOnly)
            <==> forall i :: 0 <= i < |mappings| && Ambiguous(keys, lower, mappings[i].from) ==>
                   exists j :: i < j < |mappings| && mappings[j].to == mappings[i].to
                               && !Unresolved(keys, lower, mappings[j].from)
  {
    hide Deterministic;
    DeterministicIff(keys, lower, mappings, TransformedOnly);
    if forall k :: Determined(keys, lower, mappings, TransformedOnly, k) {
      forall i | 0 <= i < |mappings| && Ambiguous(keys, lower, mappings[i].from)
        ensures exists j :: i < j < |mappings| && mappings[j].to == mappings[i].to
                            && !Unresolved(keys, lower, mappings[j].from)
      {
        assert Determined(keys, lower, mappings, TransformedOnly, mappings[i].to);
        assert Settles(keys, lower, mappings[i], TransformedOnly, mappings[i].to);
      }
    }
    if k :| !Determined(keys, lower, mappings, TransformedOnly, k) {
      var i := LastSettling(keys, lower, mappings, TransformedOnly, k);
      assert Ambiguous(keys, lower, mappings[i].from);
      forall j | i < j < |mappings| ensures !(mappings[j].to == k && !Unresolved(keys, lower, mappings[j].from)) {
        assert !Settles(keys, lower, mappings[j], TransformedOnly, k);
      }
    }
  }

  ghost predicate DistinctUnder(lower: Lower, keys: set<string>) {
    forall a, b :: a in keys && b in keys && lower(a) == lower(b) ==> a == b
  }

  /** Keys that differ in lower case leave nothing to the iteration order. */
  lemma DistinctKeysUnambiguous(keys: set<string>, lower: Lower, mappings: seq<KeyMapping>)
    requires DistinctUnder(lower, keys)
    ensures Unambiguous(keys, lower, mappings)
  {}

  // ----- order of the mapping list

  ghost predicate FromMapping(keys: set<string>, lower: Lower, mappings: seq<KeyMapping>, move: Move) {
    exists i :: 0 <= i < |mappings| && Resolves(keys, lower, mappings[i].from, move.source)
      && mappings[i].to == move.target
  }

  lemma {:induction false} MovesAreResolvedMappings(keys: set<string>, lower: Lower, mappings: seq<KeyMapping>,
                                                    moves: seq<Move>, move: Move)
    requires Unambiguous(keys, lower, mappings) && MovesOf(keys, lower, mappings, moves)
    ensures move in moves <==> FromMapping(keys, lower, mappings, move)
    decreases |mappings|
  {
    if mappings != [] {
      var n := |mappings| - 1;
      var front, last := mappings[..n], mappings[n];
      assert !Ambiguous(keys, lower, mappings[n].from);
      assert FromMapping(keys, lower, mappings, move)
          <==> FromMapping(keys, lower, front, move)
               || (Resolves(keys, lower, last.from, move.source) && last.to == move.target) by {
        if FromMapping(keys, lower, front, move) {
          var i :| 0 <= i < |front| && Resolves(keys, lower, front[i].from, move.source) && front[i].to == move.target;
          assert mappings[i] == front[i];
        }
        if FromMapping(keys, lower, mappings, move) {
          var i :| 0 <= i < |mappings| && Resolves(keys, lower, mappings[i].from, move.source)
                   && mappings[i].to == move.target;
          assert i < n ==> mappings[i] == front[i];
        }
      }
      if Unresolved(keys, lower, last.from) {
        MovesAreResolvedMappings(keys, lower, front, moves, move);
      } else {
        var rest := moves[..|moves| - 1];
        MovesAreResolvedMappings(keys, lower, front, rest, move);
        assert moves == rest + [moves[|moves| - 1]];
      }
    }
  }

  /** Moves to one target carry one source, and in keep_all no target is a source. */
  ghost predicate Independent(moves: seq<Move>, mode: Mode) {
    && (forall a, b :: a in moves && b in moves && a.target == b.target ==> a.source == b.source)
    && (mode.KeepAll? ==> forall a, b :: a in moves && b in moves ==> a.target != b.source)
  }

  /** Independent moves act as a set. */
  lemma IndependentEffect<V>(data: map<string, V>, moves: seq<Move>, mode: Mode, k: string)
    requires SourcesPresent(data.Keys, moves) && Independent(moves, mode)
    ensures forall a :: a in moves && a.target == k ==> Get(Replay(data, moves, mode), k) == Some(data[a.source])
    ensures (forall a :: a in moves ==> a.target != k) ==>
              Get(Replay(data, moves, mode), k) ==
              if mode.KeepAll? && (forall a :: a in moves ==> a.source != k) then Get(data, k) else None
  {}

  /** The mappings' targets agree only for one source, and in keep_all no target is
      a source. */
  ghost predicate IndependentMappings(keys: set<string>, lower: Lower, mappings: seq<KeyMapping>, mode: Mode) {
    forall a, b: Move :: FromMapping(keys, lower, mappings, a) && FromMapping(keys, lower, mappings, b) ==>
      (a.target == b.target ==> a.source == b.source) && (mode.KeepAll? ==> a.target != b.source)
  }

  lemma MovesIndependent(keys: set<string>, lower: Lower, mappings: seq<KeyMapping>, mode: Mode, moves: seq<Move>)
    requires Unambiguous(keys, lower, mappings) && MovesOf(keys, lower, mappings, moves)
    requires IndependentMappings(keys, lower, mappings, mode)
    ensures Independent(moves, mode)
  {
    forall move | move in moves ensures FromMapping(keys, lower, mappings, move) {
      MovesAreResolvedMappings(keys, lower, mappings, moves, move);
    }
  }

  /** Any reordering of the mapping list gives the same object, when no mapping is
      ambiguous and the mappings are independent. */
  lemma MappingOrderIrrelevant<V>(data: map<string, V>, lower: Lower, mode: Mode,
                                  mappings1: seq<KeyMapping>, one: map<string, V>,
                                  mappings2: seq<KeyMapping>, two: map<string, V>)
    requires Unambiguous(data.Keys, lower, mappings1) && IndependentMappings(data.Keys, lower, mappings1, mode)
    requires multiset(mappings1) == multiset(mappings2)
    requires MayReturn(data, lower, mappings1, mode, one) && MayReturn(data, lower, mappings2, mode, two)
    ensures one == two
  {
    assert forall m :: m in mappings1 <==> m in multiset(mappings1);
    assert forall m :: m in mappings2 <==> m in multiset(mappings2);
    assert Unambiguous(data.Keys, lower, mappings2) by {
      forall i | 0 <= i < |mappings2| ensures !Ambiguous(data.Keys, lower, mappings2[i].from) {
        assert mappings2[i] in mappings1;
      }
    }
    hide MovesOf, Replay, FromMapping, Unambiguous;
    var moves1 :| MovesOf(data.Keys, lower, mappings1, moves1) && SourcesPresent(data.Keys, moves1)
                  && one == Replay(data, moves1, mode);
    var moves2 :| MovesOf(data.Keys, lower, mappings2, moves2) && SourcesPresent(data.Keys, moves2)
                  && two == Replay(data, moves2, mode);
    MovesIndependent(data.Keys, lower, mappings1, mode, moves1);
    forall move ensures move in moves1 <==> move in moves2 {
      MovesAreResolvedMappings(data.Keys, lower, mappings1, moves1, move);
      MovesAreResolvedMappings(data.Keys, lower, mappings2, moves2, move);
      SameMappingsResolve(data.Keys, lower, mappings1, mappings2, move);
      SameMappingsResolve(data.Keys, lower, mappings2, mappings1, move);
    }
    SameMovesSameEffect(data, moves1, moves2, mode);
  }

  lemma SameMovesSameEffect<V>(data: map<string, V>, moves1: seq<Move>, moves2: seq<Move>, mode: Mode)
    requires SourcesPresent(data.Keys, moves1) && SourcesPresent(data.Keys, moves2)
    requires Independent(moves1, mode) && forall move :: move in moves1 <==> move in moves2
    ensures Replay(data, moves1, mode) == Replay(data, moves2, mode)
  {
    forall k ensures Get(Replay(data, moves1, mode), k) == Get(Replay(data, moves2, mode), k) {
      IndependentEffect(data, moves1, mode, k);
      IndependentEffect(data, moves2, mode, k);
    }
    SameMap(Replay(data, moves1, mode), Replay(data, moves2, mode));
  }

  lemma SameMappingsResolve(keys: set<string>, lower: Lower, one: seq<KeyMapping>, two: seq<KeyMapping>, move: Move)
    requires forall m :: m in one ==> m in two
    ensures FromMapping(keys, lower, one, move) ==> FromMapping(keys, lower, two, move)
  {
    if FromMapping(keys, lower, one, move) {
      var i :| 0 <= i < |one| && Resolves(keys, lower, one[i].from, move.source) && one[i].to == move.target;
      assert one[i] in two;
    }
  }

  // ----- renaming back

  /** Every source is a key of the secret itself, every target is new, no two agree. */
  ghost predicate Renaming(keys: set<string>, mappings: seq<KeyMapping>) {
    && (forall i :: 0 <= i < |mappings| ==> mappings[i].from in keys && mappings[i].to !in keys)
    && (forall i, j :: 0 <= i < j < |mappings| ==>
          mappings[i].from != mappings[j].from && mappings[i].to != mappings[j].to)
  }

  function Inverse(mappings: seq<KeyMapping>): seq<KeyMapping> {
    seq(|mappings|, i requires 0 <= i < |mappings| => KeyMapping(mappings[i].to, mappings[i].from))
  }

  function DirectMoves(mappings: seq<KeyMapping>): seq<Move> {
    seq(|mappings|, i requires 0 <= i < |mappings| => Move(mappings[i].from, mappings[i].to))
  }

  lemma {:induction false} DirectRun(keys: set<string>, lower: Lower, mappings: seq<KeyMapping>, moves: seq<Move>)
    requires forall i :: 0 <= i < |mappings| ==> mappings[i].from in keys
    requires MovesOf(keys, lower, mappings, moves)
    ensures moves == DirectMoves(mappings)
    decreases |mappings|
  {
    if mappings != [] {
      var last := mappings[|mappings| - 1];
      assert Resolves(keys, lower, last.from, last.from);
      DirectRun(keys, lower, mappings[..|mappings| - 1], moves[..|moves| - 1]);
      assert moves == moves[..|moves| - 1] + [moves[|moves| - 1]];
    }
  }

  lemma RenamingIndependent(keys: set<string>, mappings: seq<KeyMapping>)
    requires Renaming(keys, mappings)
    ensures Independent(DirectMoves(mappings), KeepAll) && Independent(DirectMoves(Inverse(mappings)), KeepAll)
    ensures SourcesPresent(keys, DirectMoves(mappings))
  {}

  lemma IndependentAt<V>(data: map<string, V>, moves: seq<Move>, k: string)
    requires SourcesPresent(data.Keys, moves) && Independent(moves, KeepAll)
    ensures forall i :: 0 <= i < |moves| && moves[i].target == k ==>
                          Get(Replay(data, moves, KeepAll), k) == Some(data[moves[i].source])
    ensures (forall i :: 0 <= i < |moves| ==> moves[i].target != k) ==>
              Get(Replay(data, moves, KeepAll), k) ==
              if forall i :: 0 <= i < |moves| ==> moves[i].source != k then Get(data, k) else None
  {
    IndependentEffect(data, moves, KeepAll, k);
    assert forall i :: 0 <= i < |moves| ==> moves[i] in moves;
  }

  lemma RenamedAt<V>(data: map<string, V>, mappings: seq<KeyMapping>, i: nat)
    requires Renaming(data.Keys, mappings) && SourcesPresent(data.Keys, DirectMoves(mappings)) && i < |mappings|
    ensures Get(Replay(data, DirectMoves(mappings), KeepAll), mappings[i].to) == Get(data, mappings[i].from)
    ensures Get(Replay(data, DirectMoves(mappings), KeepAll), mappings[i].from) == None
  {
    var moves := DirectMoves(mappings);
    RenamingIndependent(data.Keys, mappings);
    assert moves[i] == Move(mappings[i].from, mappings[i].to);
    assert forall j :: 0 <= j < |moves| ==> moves[j].target != mappings[i].from;
    hide Replay, Independent, Renaming, DirectMoves;
    IndependentAt(data, moves, mappings[i].to);
    IndependentAt(data, moves, mappings[i].from);
  }

  /** The renamed secret holds each target's value, and no source. */
  lemma Renamed<V>(data: map<string, V>, mappings: seq<KeyMapping>)
    requires Renaming(data.Keys, mappings) && SourcesPresent(data.Keys, DirectMoves(mappings))
    ensures var there := Replay(data, DirectMoves(mappings), KeepAll);
            forall i :: 0 <= i < |mappings| ==>
              Get(there, mappings[i].to) == Get(data, mappings[i].from) && Get(there, mappings[i].from) == None
    ensures SourcesPresent(Replay(data, DirectMoves(mappings), KeepAll).Keys, DirectMoves(Inverse(mappings)))
  {
    hide Replay;
    var there := Replay(data, DirectMoves(mappings), KeepAll);
    forall i | 0 <= i < |mappings|
      ensures Get(there, mappings[i].to) == Get(data, mappings[i].from) && Get(there, mappings[i].from) == None
      ensures DirectMoves(Inverse(mappings))[i].source in there
    {
      RenamedAt(data, mappings, i);
      assert mappings[i].from in data;
    }
  }

  lemma RenamingBack<V>(data: map<string, V>, there: map<string, V>, mappings: seq<KeyMapping>, k: string)
    requires Renaming(data.Keys, mappings) && SourcesPresent(data.Keys, DirectMoves(mappings))
    requires there == Replay(data, DirectMoves(mappings), KeepAll)
    requires SourcesPresent(there.Keys, DirectMoves(Inverse(mappings)))
    ensures Get(Replay(there, DirectMoves(Inverse(mappings)), KeepAll), k) == Get(data, k)
  {
    hide Replay, Independent;
    var moves, back := DirectMoves(mappings), DirectMoves(Inverse(mappings));
    assert forall i :: 0 <= i < |mappings| ==> back[i] == Move(mappings[i].to, mappings[i].from);
    assert forall i :: 0 <= i < |mappings| ==> moves[i] == Move(mappings[i].from, mappings[i].to);
    RenamingIndependent(data.Keys, mappings);
    Renamed(data, mappings);
    IndependentAt(data, moves, k);
    IndependentAt(there, back, k);
    if i :| 0 <= i < |mappings| && mappings[i].from == k {
      assert back[i].target == k;
    } else if i :| 0 <= i < |mappings| && mappings[i].to == k {
      assert back[i].source == k;
    }
  }

  /** A renaming makes its moves directly. */
  lemma RenamingReturns<V>(data: map<string, V>, lower: Lower, mappings: seq<KeyMapping>, there: map<string, V>)
    requires forall i :: 0 <= i < |mappings| ==> mappings[i].from in data
    requires MayReturn(data, lower, mappings, KeepAll, there)
    ensures SourcesPresent(data.Keys, DirectMoves(mappings)) && there == Replay(data, DirectMoves(mappings), KeepAll)
  {
    var moves :| MovesOf(data.Keys, lower, mappings, moves) && SourcesPresent(data.Keys, moves)
                 && there == Replay(data, moves, KeepAll);
    DirectRun(data.Keys, lower, mappings, moves);
  }

  /** In keep_all mode, running a renaming and then its inverse gives the secret back. */
  lemma RenamingInvertible<V>(data: map<string, V>, lower: Lower, mappings: seq<KeyMapping>,
                              there: map<string, V>, back: map<string, V>)
    requires Renaming(data.Keys, mappings)
    requires MayReturn(data, lower, mappings, KeepAll, there)
    requires MayReturn(there, lower, Inverse(mappings), KeepAll, back)
    ensures back == data
  {
    hide MayReturn, Replay;
    RenamingReturns(data, lower, mappings, there);
    Renamed(data, mappings);
    forall i | 0 <= i < |mappings| ensures Inverse(mappings)[i].from in there {
      assert Get(there, mappings[i].to) == Get(data, mappings[i].from);
    }
    RenamingReturns(there, lower, Inverse(mappings), back);
    forall k ensures Get(back, k) == Get(data, k) {
      RenamingBack(data, there, mappings, k);
    }
    SameMap(back, data);
  }

  /** A run only moves values. */
  lemma {:induction false} ReplayValues<V>(data: map<string, V>, moves: seq<Move>, mode: Mode, k: string)
    requires SourcesPresent(data.Keys, moves) && k in Replay(data, moves, mode)
    ensures exists key :: key in data && data[key] == Replay(data, moves, mode)[k]
  {
    if moves != [] {
      var front, last := moves[..|moves| - 1], moves[|moves| - 1];
      if k == last.target {
        assert data[last.source] == Replay(data, moves, mode)[k];
      } else {
        ReplayValues(data, front, mode, k);
      }
    }
  }

  lemma ReturnedValues<V>(data: map<string, V>, lower: Lower, mappings: seq<KeyMapping>, mode: Mode,
                          mapped: map<string, V>, k: string)
    requires MayReturn(data, lower, mappings, mode, mapped) && k in mapped
    ensures exists key :: key in data && data[key] == mapped[k]
  {
    var moves :| MovesOf(data.Keys, lower, mappings, moves) && SourcesPresent(data.Keys, moves)
                 && mapped == Replay(data, moves, mode);
    ReplayValues(data, moves, mode, k);
  }

  /** A transformed secret is read back from its text. */
  lemma TransformedReadsBack(secret: string, lower: Lower, unmarshal: Unmarshal, mappings: seq<KeyMapping>, mode: Mode,
                             there: Object)
    requires Stable(unmarshal) || (Faithful(unmarshal) && Decode(secret).Decoded?)
    requires unmarshal(secret).Fields? && MayReturn(unmarshal(secret).fields, lower, mappings, mode, there)
    ensures unmarshal(Marshal(there)) == Fields(there)
  {
    hide Decode, Marshal, MayReturn;
    var data := unmarshal(secret).fields;
    forall k | k in there ensures exists key :: key in data && data[key] == there[k] {
      ReturnedValues(data, lower, mappings, mode, there, k);
    }
    if Stable(unmarshal) {
      forall k | k in there ensures Produced(unmarshal, there[k]) {
        var key :| key in data && data[key] == there[k];
      }
    } else {
      DecodedFlat(secret);
      assert Flat(there);
      DecodeMarshal(there);
    }
  }

  /** On the texts: transforming, then transforming back with the inverse list, returns
      the canonical text of the same object, for every unmarshaller that reads back what
      it has decoded, and on flat secrets for every one that decodes these. */
  lemma TextRenamingInvertible(secret: string, lower: Lower, unmarshal: Unmarshal, mappings: seq<KeyMapping>,
                               renamed: string, back: string)
    requires Stable(unmarshal) || (Faithful(unmarshal) && Decode(secret).Decoded?)
    requires unmarshal(secret).Fields? && mappings != []
    requires Renaming(unmarshal(secret).fields.Keys, mappings)
    requires TextMayReturn(lower, unmarshal, mappings, KeepAll, secret, renamed)
    requires TextMayReturn(lower, unmarshal, Inverse(mappings), KeepAll, renamed, back)
    ensures back == Marshal(unmarshal(secret).fields)
  {
    hide Decode, Marshal, MayReturn, Renaming, Stable, Faithful;
    var data := unmarshal(secret).fields;
    var there: Object :| MayReturn(data, lower, mappings, KeepAll, there) && renamed == Marshal(there);
    TransformedReadsBack(secret, lower, unmarshal, mappings, KeepAll, there);
    assert |Inverse(mappings)| > 0;
    var again: Object :| MayReturn(there, lower, Inverse(mappings), KeepAll, again) && back == Marshal(again);
    RenamingInvertible(data, lower, mappings, there, again);
  }

  // ----- conservation of values

  /** The values of a map, with multiplicity. */
  ghost function ValueBag<V>(m: map<string, V>): multiset<V>
    decreases |m|
  {
    if m == map[] then multiset{}
    else
      var k :| k in m;
      multiset{m[k]} + ValueBag(m - {k})
  }

  lemma BagPick<V>(m: map<string, V>) returns (k: string)
    requires m != map[]
    ensures k in m && ValueBag(m) == multiset{m[k]} + ValueBag(m - {k})
  {
    k :| k in m && ValueBag(m) == multiset{m[k]} + ValueBag(m - {k});
  }

  lemma {:induction false} BagWithout<V>(m: map<string, V>, k: string)
    requires k in m
    ensures ValueBag(m) == multiset{m[k]} + ValueBag(m - {k})
    decreases |m|
  {
    hide ValueBag;
    var k0 := BagPick(m);
    if k0 != k {
      BagWithout(m - {k0}, k);
      BagWithout(m - {k}, k0);
      assert m - {k0} - {k} == m - {k} - {k0};
    }
  }

  lemma BagCancel<V>(v: V, a: multiset<V>, b: multiset<V>)
    requires multiset{v} + a == multiset{v} + b
    ensures a == b
  {
    assert a == multiset{v} + a - multiset{v};
    assert b == multiset{v} + b - multiset{v};
  }

  lemma MovingKeepsBag<V>(m: map<string, V>, source: string, target: string)
    requires source in m && target !in m
    ensures ValueBag(m[target := m[source]] - {source}) == ValueBag(m)
  {
    hide ValueBag;
    var written := m[target := m[source]];
    BagWithout(written, target);
    BagWithout(written, source);
    assert written - {target} == m;
    BagCancel(m[source], ValueBag(m), ValueBag(written - {source}));
  }

  /** A keep_all renaming only moves values: none is lost, none is duplicated. */
  lemma RenamingConservesValues<V>(data: map<string, V>, lower: Lower, mappings: seq<KeyMapping>, there: map<string, V>)
    requires Renaming(data.Keys, mappings) && MayReturn(data, lower, mappings, KeepAll, there)
    ensures ValueBag(there) == ValueBag(data)
  {
    RenamingReturns(data, lower, mappings, there);
    DirectMovesConserve(data, mappings);
  }

  lemma {:induction false} DirectMovesConserve<V>(data: map<string, V>, mappings: seq<KeyMapping>)
    requires Renaming(data.Keys, mappings) && SourcesPresent(data.Keys, DirectMoves(mappings))
    ensures ValueBag(Replay(data, DirectMoves(mappings), KeepAll)) == ValueBag(data)
    decreases |mappings|
  {
    hide ValueBag, Independent;
    if mappings == [] {
      assert Replay(data, DirectMoves(mappings), KeepAll) == data;
    } else {
      hide Replay;
      var n := |mappings| - 1;
      var front, last := mappings[..n], mappings[n];
      var moves := DirectMoves(front);
      assert DirectMoves(mappings) == moves + [Move(last.from, last.to)];
      assert forall j :: 0 <= j < n ==> moves[j] == Move(mappings[j].from, mappings[j].to);
      DirectMovesConserve(data, front);
      var mapped := Replay(data, moves, KeepAll);
      RenamingIndependent(data.Keys, front);
      IndependentAt(data, moves, last.from);
      IndependentAt(data, moves, last.to);
      assert Get(mapped, last.from) == Get(data, last.from) && Get(mapped, last.to) == None;
      assert DirectMoves(mappings)[n].source in data;
      ReplayExtend(data, moves, Move(last.from, last.to), KeepAll);
      MovingKeepsBag(mapped, last.from, last.to);
    }
  }
}
