/**
 * The part of Hangfire's JobStorage the modelled code uses: one hash of nullable string
 * fields per recurring-job id, the registry set of ids, and write transactions. A hash is
 * keyed here by the recurring-job id itself; the fixed prefix the source puts in front of it
 * is a one-to-one renaming of keys.
 */
module Storage {
  import opened Wrappers

  /** A stored record: field name to value, `None` being a stored null. */
  type Hash = map<string, Option<string>>

  datatype StoreState = StoreState(hashes: map<string, Hash>, registry: set<string>)

  /** The writes a transaction can queue. */
  datatype WriteOp =
    | SetRangeInHash(key: string, fields: Hash)
    | AddToSet(item: string)
    | RemoveHash(key: string)
    | RemoveFromSet(item: string)

  /**
   * SetRangeInHash merges: the supplied fields take the supplied values, every other field of
   * the hash and every other hash stay as they were, and a missing hash is created.
   */
  function MergeFields(hashes: map<string, Hash>, key: string, fields: Hash): (r: map<string, Hash>)
    ensures r.Keys == hashes.Keys + {key}
    ensures forall k :: k in hashes && k != key ==> r[k] == hashes[k]
    ensures r[key].Keys == fields.Keys + (if key in hashes then hashes[key].Keys else {})
    ensures forall f :: f in fields ==> r[key][f] == fields[f]
    ensures key in hashes ==> forall f :: f in hashes[key] && f !in fields ==> r[key][f] == hashes[key][f]
  {
    hashes[key := (if key in hashes then hashes[key] else map[]) + fields]
  }

  function ApplyOp(s: StoreState, op: WriteOp): StoreState {
    match op
    case SetRangeInHash(key, fields) => s.(hashes := MergeFields(s.hashes, key, fields))
    case AddToSet(item) => s.(registry := s.registry + {item})
    case RemoveHash(key) => s.(hashes := s.hashes - {key})
    case RemoveFromSet(item) => s.(registry := s.registry - {item})
  }

  /** The state after committing the queued writes, in order. */
  function ApplyAll(s: StoreState, ops: seq<WriteOp>): StoreState
    decreases |ops|
  {
    if ops == [] then s else ApplyAll(ApplyOp(s, ops[0]), ops[1..])
  }

  /** A two-write transaction is the first write followed by the second. */
  lemma ApplyTwo(s: StoreState, first: WriteOp, second: WriteOp)
    ensures ApplyAll(s, [first, second]) == ApplyOp(ApplyOp(s, first), second)
  {
    var ops := [first, second];
    var s1 := ApplyOp(s, first);
    assert ops[1..] == [second];
    assert ApplyAll(s, ops) == ApplyAll(s1, [second]);
    assert [second][1..] == [];
    assert ApplyAll(s1, [second]) == ApplyAll(ApplyOp(s1, second), []);
  }

  /** Every registered id has a record and every record is registered. */
  ghost predicate Consistent(s: StoreState) {
    s.registry == s.hashes.Keys
  }

  /** A storage connection together with its write transactions. */
  class JobStorage {
    var hashes: map<string, Hash>
    var registry: set<string>

    function State(): StoreState
      reads this
    {
      StoreState(hashes, registry)
    }

    constructor ()
      ensures State() == StoreState(map[], {})
    {
      hashes := map[];
      registry := {};
    }

    /** GetAllEntriesFromHash: the record, or null when there is none. */
    function GetAllEntriesFromHash(key: string): (r: Option<Hash>)
      reads this
      ensures r.Some? <==> key in hashes
      ensures r.Some? ==> r.value == hashes[key]
    {
      if key in hashes then Some(hashes[key]) else None
    }

    /** GetAllItemsFromSet on the registry. */
    function GetAllItemsFromSet(): set<string>
      reads this
    {
      registry
    }

    /** The connection's own SetRangeInHash, outside any transaction. */
    method SetRangeInHash(key: string, fields: Hash)
      modifies this
      ensures State() == ApplyOp(old(State()), WriteOp.SetRangeInHash(key, fields))
    {
      hashes := MergeFields(hashes, key, fields);
    }

    /** Transaction.Commit: the queued writes take effect together. */
    method Commit(ops: seq<WriteOp>)
      modifies this
      ensures State() == ApplyAll(old(State()), ops)
    {
      var s := ApplyAll(State(), ops);
      hashes, registry := s.hashes, s.registry;
    }
  }
}
