/** The key-mapping transform (transform/transform.go): a loop that reads the
    original secret and writes to and deletes from a second map. */
module Transform {
  import opened Text
  import opened Json

  datatype KeyMapping = KeyMapping(from: string, to: string)

  datatype Mode = KeepAll | TransformedOnly

  /** Any lower-casing of strings. */
  type Lower = string -> string

  // ----- finding the source key

  /** The key `from` may resolve to: itself when present, else any key equal to it
      in lower case. */
  ghost predicate Resolves(keys: set<string>, lower: Lower, from: string, key: string) {
    if from in keys then key == from else key in keys && lower(key) == lower(from)
  }

  ghost predicate Unresolved(keys: set<string>, lower: Lower, from: string) {
    forall key :: !Resolves(keys, lower, from, key)
  }

  // ----- the moves a run makes

  /** One mapping that found its source key. */
  datatype Move = Move(source: string, target: string)

  /** The moves a run over the mappings may make; map iteration order decides which
      when a mapping resolves to several keys. */
  ghost predicate MovesOf(keys: set<string>, lower: Lower, mappings: seq<KeyMapping>, moves: seq<Move>)
    decreases |mappings|
  {
    if mappings == [] then moves == []
    else
      var rest, last := mappings[..|mappings| - 1], mappings[|mappings| - 1];
      if Unresolved(keys, lower, last.from) then MovesOf(keys, lower, rest, moves)
      else
        && moves != []
        && Resolves(keys, lower, last.from, moves[|moves| - 1].source)
        && moves[|moves| - 1].target == last.to
        && MovesOf(keys, lower, rest, moves[..|moves| - 1])
  }

  predicate SourcesPresent(keys: set<string>, moves: seq<Move>) {
    forall i :: 0 <= i < |moves| ==> moves[i].source in keys
  }

  lemma {:induction false} MovesPresent(keys: set<string>, lower: Lower, mappings: seq<KeyMapping>, moves: seq<Move>)
    requires MovesOf(keys, lower, mappings, moves)
    ensures SourcesPresent(keys, moves)
    decreases |mappings|
  {
    if mappings != [] {
      var rest, last := mappings[..|mappings| - 1], mappings[|mappings| - 1];
      if Unresolved(keys, lower, last.from) {
        MovesPresent(keys, lower, rest, moves);
      } else {
        MovesPresent(keys, lower, rest, moves[..|moves| - 1]);
      }
    }
  }

  // ----- their effect

  /** Writing the target, then, in keep_all mode, deleting the source. */
  function Effect<V>(data: map<string, V>, mapped: map<string, V>, move: Move, mode: Mode): map<string, V>
    requires move.source in data
  {
    var written := mapped[move.target := data[move.source]];
    if mode.KeepAll? then written - {move.source} else written
  }

  function Replay<V>(data: map<string, V>, moves: seq<Move>, mode: Mode): map<string, V>
    requires SourcesPresent(data.Keys, moves)
  {
    if moves == [] then (if mode.KeepAll? then data else map[])
    else Effect(data, Replay(data, moves[..|moves| - 1], mode), moves[|moves| - 1], mode)
  }

  lemma ReplayExtend<V>(data: map<string, V>, moves: seq<Move>, move: Move, mode: Mode)
    requires SourcesPresent(data.Keys, moves) && move.source in data
    ensures Replay(data, moves + [move], mode) == Effect(data, Replay(data, moves, mode), move, mode)
  {}

  lemma MovesExtend<V>(data: map<string, V>, lower: Lower, mappings: seq<KeyMapping>, i: nat, moves: seq<Move>,
                       source: string)
    requires i < |mappings| && MovesOf(data.Keys, lower, mappings[..i], moves)
    requires Resolves(data.Keys, lower, mappings[i].from, source)
    ensures MovesOf(data.Keys, lower, mappings[..i + 1], moves + [Move(source, mappings[i].to)])
  {
    var more := moves + [Move(source, mappings[i].to)];
    assert more[..|more| - 1] == moves;
    assert mappings[..i + 1][..i] == mappings[..i];
  }

  // ----- the loop

  /** The objects a run over the mappings may return, over all iteration orders. */
  ghost predicate MayReturn<V>(data: map<string, V>, lower: Lower, mappings: seq<KeyMapping>, mode: Mode,
                               mapped: map<string, V>) {
    exists moves :: MovesOf(data.Keys, lower, mappings, moves) && SourcesPresent(data.Keys, moves)
                    && mapped == Replay(data, moves, mode)
  }

  /** `Transform` after decoding and before marshalling. */
  method Apply<V>(data: map<string, V>, mappings: seq<KeyMapping>, mode: Mode, lower: Lower)
    returns (mapped: map<string, V>)
    ensures MayReturn(data, lower, mappings, mode, mapped)
  {
    mapped := map[];
    if mode.KeepAll? {
      mapped := Copy(data);
    }
    ghost var moves: seq<Move> := [];
    for i := 0 to |mappings|
      invariant MovesOf(data.Keys, lower, mappings[..i], moves) && SourcesPresent(data.Keys, moves)
      invariant mapped == Replay(data, moves, mode)
    {
      var mapping := mappings[i];
      var source, found := mapping.from, mapping.from in data;
      if !found {
        source, found := FindIgnoringCase(data, mapping.from, lower);
      }
      if found {
        mapped := mapped[mapping.to := data[source]];
        if mode.KeepAll? {
          mapped := mapped - {source};
        }
        MovesExtend(data, lower, mappings, i, moves, source);
        ReplayExtend(data, moves, Move(source, mapping.to), mode);
        moves := moves + [Move(source, mapping.to)];
      } else {
        assert mappings[..i + 1][..i] == mappings[..i];
      }
    }
    assert mappings[..|mappings|] == mappings;
  }

  /** Copying the secret key by key, in any order. */
  method Copy<V>(data: map<string, V>) returns (copy: map<string, V>)
    ensures copy == data
  {
    copy := map[];
    var left := data.Keys;
    while left != {}
      invariant left <= data.Keys && copy.Keys == data.Keys - left
      invariant forall k :: k in copy ==> copy[k] == data[k]
      decreases left
    {
      var key :| key in left;
      copy := copy[key := data[key]];
      left := left - {key};
    }
  }

  /** The first key, in an arbitrary iteration order, equal to `from` in lower case. */
  method FindIgnoringCase<V>(data: map<string, V>, from: string, lower: Lower) returns (key: string, found: bool)
    ensures found ==> key in data && lower(key) == lower(from)
    ensures !found ==> forall k :: k in data ==> lower(k) != lower(from)
  {
    key, found := from, false;
    var left := data.Keys;
    while left != {}
      invariant left <= data.Keys
      invariant forall k :: k in data && k !in left ==> lower(k) != lower(from)
      decreases left
    {
      var originalKey :| originalKey in left;
      if lower(originalKey) == lower(from) {
        return originalKey, true;
      }
      left := left - {originalKey};
    }
  }

  // ----- the secret's text

  /** The texts `Transform` may return: the text itself when there is no mapping or no
      JSON object, otherwise a marshalled result. */
  ghost predicate TextMayReturn(lower: Lower, unmarshal: Unmarshal, mappings: seq<KeyMapping>, mode: Mode,
                                secret: string, result: string) {
    if mappings != [] && unmarshal(secret).Fields? then
      exists mapped: Object ::
        MayReturn(unmarshal(secret).fields, lower, mappings, mode, mapped) && result == Marshal(mapped)
    else result == secret
  }

  /** `Transform` */
  method Run(mappings: seq<KeyMapping>, mode: Mode, lower: Lower, unmarshal: Unmarshal, secret: string)
    returns (result: string)
    ensures TextMayReturn(lower, unmarshal, mappings, mode, secret, result)
    ensures mappings == [] || unmarshal(secret).NotAnObject? ==> result == secret
    ensures mappings != [] && unmarshal(secret).Fields? ==>
              exists mapped: Object ::
                MayReturn(unmarshal(secret).fields, lower, mappings, mode, mapped) && result == Marshal(mapped)
  {
    hide Marshal;
    if mappings == [] {
      return secret;
    }
    var secretData := unmarshal(secret);
    if secretData.NotAnObject? {
      return secret;
    }
    var mapped := Apply(secretData.fields, mappings, mode, lower);
    result := Marshal(mapped);
  }
}
