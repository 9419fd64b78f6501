/** A cache that drops what it need not keep whenever it is written, seen against a map that
    is never pruned. Times are instants of a clock that does not go back. */
module PruningCaches {
  import opened Prelude

  /** `keep` is asked about an entry at some instant. */
  type Keep<!K, !V> = (K, V, int) -> bool

  function Lookup<K, V>(m: map<K, V>, keep: Keep<K, V>, k: K, now: int): Option<V> {
    if k in m && keep(k, m[k], now) then Some(m[k]) else None
  }

  /** Every entry is asked about at an instant of its own while the lock is held. */
  function Pruned<K, V>(m: map<K, V>, keep: Keep<K, V>, checked: K -> int): map<K, V> {
    map k | k in m && keep(k, m[k], checked(k)) :: m[k]
  }

  datatype Op<!K, V> =
    | Get(key: K, now: int)
    | Insert(key: K, value: V, checked: K -> int, end: int)

  /** The instants of an operation that starts when the clock shows `clock`. */
  ghost predicate InTime<K(!new), V>(op: Op<K, V>, clock: int) {
    match op
    case Get(_, now) => clock <= now
    case Insert(_, _, checked, end) => clock <= end && forall k :: clock <= checked(k) <= end
  }

  function After<K, V>(op: Op<K, V>): int {
    match op
    case Get(_, now) => now
    case Insert(_, _, _, end) => end
  }

  ghost predicate AllInTime<K(!new), V>(ops: seq<Op<K, V>>, clock: int)
    decreases |ops|
  {
    ops != [] ==> InTime(ops[0], clock) && AllInTime(ops[1..], After(ops[0]))
  }

  /** The answers to the gets of a run. */
  function Answers<K, V>(m: map<K, V>, keep: Keep<K, V>, ops: seq<Op<K, V>>): seq<Option<V>>
    decreases |ops|
  {
    if ops == [] then []
    else
      match ops[0]
      case Get(k, now) => [Lookup(m, keep, k, now)] + Answers(m, keep, ops[1..])
      case Insert(k, v, checked, _) => Answers(Pruned(m[k := v], keep, checked), keep, ops[1..])
  }

  /** The answers of a map that only drops entries at reading. */
  function PlainAnswers<K, V>(all: map<K, V>, keep: Keep<K, V>, ops: seq<Op<K, V>>): seq<Option<V>>
    decreases |ops|
  {
    if ops == [] then []
    else
      match ops[0]
      case Get(k, now) => [Lookup(all, keep, k, now)] + PlainAnswers(all, keep, ops[1..])
      case Insert(k, v, _, _) => PlainAnswers(all[k := v], keep, ops[1..])
  }

  /** What is not worth keeping once never is again. */
  ghost predicate Lasting<K(!new), V(!new)>(keep: Keep<K, V>) {
    forall k, v, t, u :: t <= u && keep(k, v, u) ==> keep(k, v, t)
  }

  /** The cache lacks only what is not to be kept any more. */
  ghost predicate Agrees<K(!new), V>(m: map<K, V>, all: map<K, V>, keep: Keep<K, V>, clock: int) {
    && (forall k :: k in m ==> k in all && m[k] == all[k])
    && (forall k :: k in all && k !in m ==> !keep(k, all[k], clock))
  }

  lemma GetAgrees<K(!new), V(!new)>(m: map<K, V>, all: map<K, V>, keep: Keep<K, V>, clock: int, k: K, now: int)
    requires Lasting(keep) && Agrees(m, all, keep, clock) && clock <= now
    ensures Lookup(m, keep, k, now) == Lookup(all, keep, k, now) && Agrees(m, all, keep, now)
  {
  }

  lemma InsertAgrees<K(!new), V(!new)>(m: map<K, V>, all: map<K, V>, keep: Keep<K, V>, clock: int, k: K, v: V,
      checked: K -> int, end: int)
    requires Lasting(keep) && Agrees(m, all, keep, clock) && InTime(Insert(k, v, checked, end), clock)
    ensures Agrees(Pruned(m[k := v], keep, checked), all[k := v], keep, end)
  {
  }

  /** In every run, pruning cannot be told from not pruning. */
  lemma {:induction false} PruningIsUnobservable<K(!new), V(!new)>(m: map<K, V>, all: map<K, V>, keep: Keep<K, V>,
      ops: seq<Op<K, V>>, clock: int)
    requires Lasting(keep) && Agrees(m, all, keep, clock) && AllInTime(ops, clock)
    ensures Answers(m, keep, ops) == PlainAnswers(all, keep, ops)
    decreases |ops|
  {
    if ops != [] {
      match ops[0]
      case Get(k, now) =>
        GetAgrees(m, all, keep, clock, k, now);
        PruningIsUnobservable(m, all, keep, ops[1..], now);
      case Insert(k, v, checked, end) =>
        InsertAgrees(m, all, keep, clock, k, v, checked, end);
        PruningIsUnobservable(Pruned(m[k := v], keep, checked), all[k := v], keep, ops[1..], end);
    }
  }

  ghost predicate Unobservable<K(!new), V(!new)>(keep: Keep<K, V>) {
    forall ops: seq<Op<K, V>>, clock :: AllInTime(ops, clock)
      ==> Answers(map[], keep, ops) == PlainAnswers(map[], keep, ops)
  }

  /** It is unobservable for just those conditions that never come back. */
  lemma UnobservableIffLasting<K(!new), V(!new)>(keep: Keep<K, V>)
    ensures Unobservable(keep) <==> Lasting(keep)
  {
    if Lasting(keep) {
      forall ops: seq<Op<K, V>>, clock | AllInTime(ops, clock)
        ensures Answers(map[], keep, ops) == PlainAnswers(map[], keep, ops)
      {
        PruningIsUnobservable(map[], map[], keep, ops, clock);
      }
    }
    if Unobservable(keep) {
      forall k, v, t, u | t <= u && keep(k, v, u) ensures keep(k, v, t) {
        InsertThenGet(keep, k, v, t, u);
      }
    }
  }

  lemma InsertThenGet<K(!new), V(!new)>(keep: Keep<K, V>, k: K, v: V, t: int, u: int)
    requires Unobservable(keep) && t <= u && keep(k, v, u)
    ensures keep(k, v, t)
  {
    var get: Op<K, V> := Get(k, u);
    var ops := [Insert(k, v, _ => t, t), get];
    assert ops[1..] == [get] && [get][1..] == [];
    assert AllInTime([get], t);
    assert AllInTime(ops, t);
    var m := Pruned(map[k := v], keep, _ => t);
    assert map[][k := v] == map[k := v];
    assert Answers(map[], keep, ops) == Answers(m, keep, [get]) == [Lookup(m, keep, k, u)];
    assert PlainAnswers(map[], keep, ops) == PlainAnswers(map[k := v], keep, [get])
      == [Lookup(map[k := v], keep, k, u)];
    assert [Lookup(m, keep, k, u)][0] == Some(v);
  }

  // ------------------------------------------------------------- the cache itself

  class PruningCache<K(!new, ==), V(!new)> {
    var entries: map<K, V>
    const keep: Keep<K, V>
    /** Everything ever inserted, and the last instant seen. */
    ghost var all: map<K, V>
    ghost var clock: int

    ghost predicate Valid()
      reads this
    {
      Lasting(keep) && Agrees(entries, all, keep, clock)
    }

    constructor (keep: Keep<K, V>, now: int)
      requires Lasting(keep)
      ensures Valid() && this.keep == keep && all == map[] && clock == now
    {
      entries, all, clock := map[], map[], now;
      this.keep := keep;
    }

    method Get(k: K, now: int) returns (r: Option<V>)
      requires Valid() && clock <= now
      modifies this`clock
      ensures Valid() && clock == now && r == Lookup(all, keep, k, now)
    {
      GetAgrees(entries, all, keep, clock, k, now);
      if k in entries && keep(k, entries[k], now) {
        r := Some(entries[k]);
      } else {
        r := None;
      }
      clock := now;
    }

    method Insert(k: K, v: V, checked: K -> int, end: int)
      requires Valid() && InTime(Op.Insert(k, v, checked, end), clock)
      modifies this
      ensures Valid() && clock == end && all == old(all)[k := v]
      ensures entries == Pruned(old(entries)[k := v], keep, checked)
    {
      InsertAgrees(entries, all, keep, clock, k, v, checked, end);
      entries := entries[k := v];
      entries := Pruned(entries, keep, checked);
      all, clock := all[k := v], end;
    }
  }
}
