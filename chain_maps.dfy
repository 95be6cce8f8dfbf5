/**
 * chain_maps (useraudit/tests/utils.py), the helper the tests build their
 * settings overrides with: a reduce of dict.update over the arguments in
 * reverse, starting from a new empty dict, so the first map wins and the
 * result is a separate copy.
 */
module ChainMaps {
  import opened Strings

  /** merge(d1, d2): d1.update(d2), so d2's values win; the updated d1 is returned. */
  function Merge<K, V>(d1: map<K, V>, d2: map<K, V>): (r: map<K, V>)
    ensures r.Keys == d1.Keys + d2.Keys
    ensures forall k | k in d2 :: r[k] == d2[k]
    ensures forall k | k in d1 && k !in d2 :: r[k] == d1[k]
  {
    d1 + d2
  }

  /** functools.reduce(merge, ms, acc) */
  function Reduce<K, V>(acc: map<K, V>, ms: seq<map<K, V>>): map<K, V>
    decreases |ms|
  {
    if ms == [] then acc else Reduce(Merge(acc, ms[0]), ms[1..])
  }

  /** chain_maps(*args) */
  function Chain<K, V>(args: seq<map<K, V>>): map<K, V>
  {
    Reduce(map[], Reverse(args))
  }

  /** The keys present in any of the maps. */
  function AllKeys<K, V>(args: seq<map<K, V>>): set<K>
    decreases |args|
  {
    if args == [] then {} else args[0].Keys + AllKeys(args[1..])
  }

  /** Reducing over one more map merges it in last. */
  lemma {:induction false} ReduceSnoc<K, V>(acc: map<K, V>, ms: seq<map<K, V>>, m: map<K, V>)
    ensures Reduce(acc, ms + [m]) == Merge(Reduce(acc, ms), m)
    decreases |ms|
  {
    if ms == [] {
      assert [m][1..] == [];
      assert Reduce(Merge(acc, m), []) == Merge(acc, m);
    } else {
      assert (ms + [m])[0] == ms[0] && (ms + [m])[1..] == ms[1..] + [m];
      ReduceSnoc(Merge(acc, ms[0]), ms[1..], m);
    }
  }

  /** The first argument is merged in last, over the chain of the rest. */
  lemma ChainCons<K, V>(args: seq<map<K, V>>)
    requires args != []
    ensures Chain(args) == Merge(Chain(args[1..]), args[0])
  {
    assert Reverse(args) == Reverse(args[1..]) + [args[0]];
    ReduceSnoc(map[], Reverse(args[1..]), args[0]);
  }

  /** No arguments give the empty map. */
  lemma ChainEmpty<K, V>()
    ensures Chain<K, V>([]) == map[]
  {
  }

  /** A single argument gives a map equal to it (a copy: maps here are values). */
  lemma ChainSingle<K, V>(m: map<K, V>)
    ensures Chain([m]) == m
  {
    ChainCons([m]);
    assert [m][1..] == [];
    assert Chain<K, V>([]) == map[];
  }

  /** The keys of the result are the union of the arguments' keys. */
  lemma {:induction false} ChainKeys<K, V>(args: seq<map<K, V>>)
    ensures Chain(args).Keys == AllKeys(args)
    decreases |args|
  {
    if args != [] {
      ChainCons(args);
      ChainKeys(args[1..]);
    }
  }

  /** A key takes its value from the first argument that has it. */
  lemma {:induction false} FirstWins<K, V>(args: seq<map<K, V>>, i: nat, k: K)
    requires i < |args| && k in args[i]
    requires forall j | 0 <= j < i :: k !in args[j]
    ensures k in Chain(args) && Chain(args)[k] == args[i][k]
    decreases i
  {
    ChainCons(args);
    if i > 0 {
      FirstWins(args[1..], i - 1, k);
    }
  }

  /** chain_maps as its loop: d1.update(d2) over the arguments from last to first. */
  method ChainLoop<K, V>(args: seq<map<K, V>>) returns (acc: map<K, V>)
    ensures acc == Chain(args)
  {
    acc := map[];
    var i := |args|;
    while i > 0
      invariant 0 <= i <= |args|
      invariant acc == Chain(args[i..])
    {
      i := i - 1;
      assert args[i..][1..] == args[i + 1..];
      ChainCons(args[i..]);
      acc := Merge(acc, args[i]);
    }
    assert args[0..] == args;
  }
}
