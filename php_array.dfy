/**
  PHP's ordered array, restricted to string keys: a sequence of key/value
  entries in iteration order. Reading a key finds its slot; assigning to a
  key that is present overwrites that slot in place, assigning to a new key
  appends it; `unset` removes the slot and closes the gap.
 */
module PhpArray {

  datatype Option<+T> = None | Some(value: T)

  /** One `key => value` slot. */
  datatype Entry<+V> = Entry(key: string, value: V)

  /** The keys in iteration order (`array_keys`). */
  function Keys<V>(a: seq<Entry<V>>): (ks: seq<string>)
    ensures |ks| == |a|
    ensures forall i :: 0 <= i < |a| ==> ks[i] == a[i].key
  {
    if a == [] then [] else [a[0].key] + Keys(a[1..])
  }

  /** Every key occurs in one slot only: what every PHP array satisfies. */
  predicate UniqueKeys<V>(a: seq<Entry<V>>)
  {
    forall i, j :: 0 <= i < j < |a| ==> a[i].key != a[j].key
  }

  /** The keys of a slot followed by an array. */
  lemma KeysCons<V>(e: Entry<V>, a: seq<Entry<V>>)
    ensures Keys([e] + a) == [e.key] + Keys(a)
  {
    assert ([e] + a)[1..] == a;
  }

  /** An array with unique keys is a fresh key followed by an array with unique keys. */
  lemma UniqueCons<V>(e: Entry<V>, a: seq<Entry<V>>)
    ensures UniqueKeys([e] + a) <==> e.key !in Keys(a) && UniqueKeys(a)
  {
    if UniqueKeys([e] + a) {
      UniqueConsSplit(e, a);
    }
    if e.key !in Keys(a) && UniqueKeys(a) {
      UniqueConsJoin(e, a);
    }
  }

  lemma UniqueConsSplit<V>(e: Entry<V>, a: seq<Entry<V>>)
    requires UniqueKeys([e] + a)
    ensures e.key !in Keys(a) && UniqueKeys(a)
  {
    var b := [e] + a;
    forall i | 0 <= i < |a| ensures Keys(a)[i] != e.key {
      assert b[0].key != b[i + 1].key && b[i + 1] == a[i];
    }
    forall i, j | 0 <= i < j < |a| ensures a[i].key != a[j].key {
      assert b[i + 1] == a[i] && b[j + 1] == a[j];
    }
  }

  lemma UniqueConsJoin<V>(e: Entry<V>, a: seq<Entry<V>>)
    requires e.key !in Keys(a) && UniqueKeys(a)
    ensures UniqueKeys([e] + a)
  {
    var b := [e] + a;
    forall i, j | 0 <= i < j < |b| ensures b[i].key != b[j].key {
      assert b[j] == a[j - 1];
      if i == 0 {
        assert Keys(a)[j - 1] == b[j].key;
      } else {
        assert b[i] == a[i - 1];
      }
    }
  }

  /** The position of the first occurrence of `x` in `ks`, or `|ks|` when there is none. */
  function Find(ks: seq<string>, x: string): (p: nat)
    ensures p <= |ks|
    ensures p < |ks| ==> ks[p] == x
    ensures forall i :: 0 <= i < p ==> ks[i] != x
  {
    if ks == [] then 0
    else if ks[0] == x then 0
    else 1 + Find(ks[1..], x)
  }

  /** Find is determined by its contract: the first position holding `x`. */
  lemma FindIs(ks: seq<string>, x: string, p: nat)
    requires p <= |ks|
    requires p < |ks| ==> ks[p] == x
    requires forall i :: 0 <= i < p ==> ks[i] != x
    ensures Find(ks, x) == p
  {
    var q := Find(ks, x);
    assert !(q < p) && !(p < q);
  }

  /** `$a[$k]`, with `None` for a missing key: the value of the first slot holding `k`. */
  function Get<V>(a: seq<Entry<V>>, k: string): (r: Option<V>)
    ensures r.Some? <==> k in Keys(a)
  {
    if a == [] then None
    else
      KeysCons(a[0], a[1..]);
      assert a == [a[0]] + a[1..];
      if a[0].key == k then Some(a[0].value) else Get(a[1..], k)
  }

  /** Reading a slot followed by an array. */
  lemma GetCons<V>(e: Entry<V>, a: seq<Entry<V>>, x: string)
    ensures Get([e] + a, x) == if e.key == x then Some(e.value) else Get(a, x)
  {
    assert ([e] + a)[1..] == a;
  }

  /** `$a[$k] ?? $default` */
  function GetOr<V>(a: seq<Entry<V>>, k: string, default: V): V
  {
    match Get(a, k)
    case Some(v) => v
    case None => default
  }

  /** `$a[$k] = $v`: overwrites the slot of an existing key, appends a new key. */
  function Set<V>(a: seq<Entry<V>>, k: string, v: V): (r: seq<Entry<V>>)
    ensures Get(r, k) == Some(v)
    ensures forall x :: x != k ==> Get(r, x) == Get(a, x)
  {
    if a == [] then
      [Entry(k, v)]
    else
      assert a == [a[0]] + a[1..];
      if a[0].key == k then
        SetHere(a[0], a[1..], v);
        [Entry(k, v)] + a[1..]
      else
        var rest := Set(a[1..], k, v);
        SetThere(a[0], a[1..], k, v, rest);
        [a[0]] + rest
  }

  /** Assignment keeps the keys where they were and appends a new key last; keys stay unique. */
  lemma {:induction false} SetKeys<V>(a: seq<Entry<V>>, k: string, v: V)
    ensures Keys(Set(a, k, v)) == if k in Keys(a) then Keys(a) else Keys(a) + [k]
    ensures UniqueKeys(a) ==> UniqueKeys(Set(a, k, v))
  {
    if a == [] {
      KeysCons(Entry(k, v), []);
      assert [Entry(k, v)][1..] == [];
    } else {
      assert a == [a[0]] + a[1..];
      if a[0].key == k {
        SetHere(a[0], a[1..], v);
      } else {
        var rest := Set(a[1..], k, v);
        SetKeys(a[1..], k, v);
        SetThereKeys(a[0], a[1..], k, rest);
        SetThereUnique(a[0], a[1..], k, rest);
      }
    }
  }

  /** `Set` when the first slot holds the key: that slot is overwritten. */
  lemma SetHere<V>(e: Entry<V>, tail: seq<Entry<V>>, v: V)
    ensures var k, a, r := e.key, [e] + tail, [Entry(e.key, v)] + tail;
      Get(r, k) == Some(v)
      && (forall x :: x != k ==> Get(r, x) == Get(a, x))
      && k in Keys(a) && Keys(r) == Keys(a)
      && (UniqueKeys(a) ==> UniqueKeys(r))
  {
    var k := e.key;
    GetCons(Entry(k, v), tail, k);
    forall x | x != k ensures Get([Entry(k, v)] + tail, x) == Get([e] + tail, x) {
      GetCons(Entry(k, v), tail, x);
      GetCons(e, tail, x);
    }
    KeysCons(Entry(k, v), tail);
    KeysCons(e, tail);
    UniqueCons(Entry(k, v), tail);
    UniqueCons(e, tail);
  }

  /** `Set` when the first slot holds another key: reads go to the updated tail. */
  lemma SetThere<V>(e: Entry<V>, tail: seq<Entry<V>>, k: string, v: V, rest: seq<Entry<V>>)
    requires e.key != k
    requires Get(rest, k) == Some(v)
    requires forall x :: x != k ==> Get(rest, x) == Get(tail, x)
    ensures Get([e] + rest, k) == Some(v)
    ensures forall x :: x != k ==> Get([e] + rest, x) == Get([e] + tail, x)
  {
    GetCons(e, rest, k);
    forall x | x != k ensures Get([e] + rest, x) == Get([e] + tail, x) {
      GetCons(e, rest, x);
      GetCons(e, tail, x);
    }
  }

  lemma SetThereKeys<V>(e: Entry<V>, tail: seq<Entry<V>>, k: string, rest: seq<Entry<V>>)
    requires e.key != k
    requires Keys(rest) == if k in Keys(tail) then Keys(tail) else Keys(tail) + [k]
    ensures Keys([e] + rest) == if k in Keys([e] + tail) then Keys([e] + tail) else Keys([e] + tail) + [k]
  {
    KeysCons(e, rest);
    KeysCons(e, tail);
    assert k in Keys([e] + tail) <==> k in Keys(tail);
    if k !in Keys(tail) {
      assert [e.key] + (Keys(tail) + [k]) == [e.key] + Keys(tail) + [k];
    }
  }

  lemma SetThereUnique<V>(e: Entry<V>, tail: seq<Entry<V>>, k: string, rest: seq<Entry<V>>)
    requires e.key != k
    requires Keys(rest) == if k in Keys(tail) then Keys(tail) else Keys(tail) + [k]
    requires UniqueKeys(tail) ==> UniqueKeys(rest)
    ensures UniqueKeys([e] + tail) ==> UniqueKeys([e] + rest)
  {
    UniqueCons(e, tail);
    UniqueCons(e, rest);
    if UniqueKeys([e] + tail) {
      assert e.key !in Keys(rest);
    }
  }

  /** `unset($a[$k])`: removes the first slot holding `k`, if any, keeping the order of the rest. */
  function Unset<V>(a: seq<Entry<V>>, k: string): (r: seq<Entry<V>>)
    ensures forall x :: x != k ==> Get(r, x) == Get(a, x)
    ensures UniqueKeys(a) ==> UniqueKeys(r) && Get(r, k) == None
    ensures k !in Keys(a) ==> r == a
  {
    if a == [] then []
    else
      assert a == [a[0]] + a[1..];
      if a[0].key == k then
        UnsetHere(a[0], a[1..]);
        a[1..]
      else
        var rest := Unset(a[1..], k);
        UnsetThere(a[0], a[1..], k, rest);
        [a[0]] + rest
  }

  /** `unset` when the first slot holds the key: the tail remains. */
  lemma UnsetHere<V>(e: Entry<V>, tail: seq<Entry<V>>)
    ensures forall x :: x != e.key ==> Get(tail, x) == Get([e] + tail, x)
    ensures UniqueKeys([e] + tail) ==> UniqueKeys(tail) && Get(tail, e.key) == None
    ensures e.key in Keys([e] + tail)
  {
    forall x | x != e.key ensures Get(tail, x) == Get([e] + tail, x) {
      GetCons(e, tail, x);
    }
    UniqueCons(e, tail);
    KeysCons(e, tail);
  }

  /** `unset` when the first slot holds another key: the tail is updated. */
  lemma UnsetThere<V>(e: Entry<V>, tail: seq<Entry<V>>, k: string, rest: seq<Entry<V>>)
    requires e.key != k
    requires forall x :: x != k ==> Get(rest, x) == Get(tail, x)
    requires UniqueKeys(tail) ==> UniqueKeys(rest) && Get(rest, k) == None
    requires k !in Keys(tail) ==> rest == tail
    ensures forall x :: x != k ==> Get([e] + rest, x) == Get([e] + tail, x)
    ensures UniqueKeys([e] + tail) ==> UniqueKeys([e] + rest) && Get([e] + rest, k) == None
    ensures k !in Keys([e] + tail) ==> [e] + rest == [e] + tail
  {
    forall x | x != k ensures Get([e] + rest, x) == Get([e] + tail, x) {
      GetCons(e, rest, x);
      GetCons(e, tail, x);
    }
    GetCons(e, rest, k);
    UniqueCons(e, tail);
    UniqueCons(e, rest);
    KeysCons(e, tail);
    if UniqueKeys([e] + tail) {
      assert e.key !in Keys(tail);
      assert Get(rest, e.key) == Get(tail, e.key);
      assert e.key !in Keys(rest);
    }
  }

  /** Assigning to the key of slot `i` overwrites slot `i`. */
  lemma {:induction false} SetExisting<V>(a: seq<Entry<V>>, i: nat, v: V)
    requires UniqueKeys(a) && i < |a|
    ensures Set(a, a[i].key, v) == a[i := Entry(a[i].key, v)]
  {
    var e, tail := a[0], a[1..];
    assert a == [e] + tail;
    var k := a[i].key;
    if i == 0 {
      assert Set(a, k, v) == [Entry(k, v)] + tail;
      assert a[0 := Entry(k, v)] == [Entry(k, v)] + tail;
    } else {
      assert e.key != k;
      UniqueCons(e, tail);
      assert tail[i - 1] == a[i];
      SetExisting(tail, i - 1, v);
      assert Set(a, k, v) == [e] + Set(tail, k, v);
      ConsUpdate(a, i, Entry(k, v));
    }
  }

  /** A second update of the same slot replaces the first. */
  lemma UpdateTwice<T>(a: seq<T>, i: nat, x: T, y: T)
    requires i < |a|
    ensures a[i := x][i := y] == a[i := y]
  {
    var l, r := a[i := x][i := y], a[i := y];
    assert |l| == |r|;
    forall j | 0 <= j < |l| ensures l[j] == r[j] {
    }
  }

  /** Updating position `i - 1` of the tail is updating position `i` of the whole. */
  lemma ConsUpdate<T>(a: seq<T>, i: nat, x: T)
    requires 0 < i < |a|
    ensures [a[0]] + a[1..][i - 1 := x] == a[i := x]
  {
    var l, r := [a[0]] + a[1..][i - 1 := x], a[i := x];
    assert |l| == |r|;
    forall j | 0 <= j < |l| ensures l[j] == r[j] {
      if j > 0 {
        assert l[j] == a[1..][i - 1 := x][j - 1];
      }
    }
  }

  /** Key `x` occurs strictly before key `y` in iteration order. */
  predicate Before<V>(a: seq<Entry<V>>, x: string, y: string)
  {
    Find(Keys(a), x) < Find(Keys(a), y) < |a|
  }

  /** `x` is the key iterated last. */
  predicate IsLast<V>(a: seq<Entry<V>>, x: string)
  {
    |a| > 0 && a[|a| - 1].key == x
  }

  /** Assignment never reorders keys: an existing key keeps its slot, a new key goes after all others. */
  lemma {:induction false} SetKeepsOrder<V>(a: seq<Entry<V>>, k: string, v: V, x: string, y: string)
    requires Before(a, x, y)
    ensures Before(Set(a, k, v), x, y)
  {
    var e, tail := a[0], a[1..];
    assert a == [e] + tail;
    FindCons(e, tail, x);
    FindCons(e, tail, y);
    if e.key == k {
      assert Set(a, k, v) == [Entry(k, v)] + tail;
      FindCons(Entry(k, v), tail, x);
      FindCons(Entry(k, v), tail, y);
    } else {
      var rest := Set(tail, k, v);
      assert Set(a, k, v) == [e] + rest;
      FindCons(e, rest, x);
      FindCons(e, rest, y);
      if e.key == x {
        FindPresent(tail, y);
        assert Get(rest, y).Some?;
        FindPresent(rest, y);
      } else {
        SetKeepsOrder(tail, k, v, x, y);
      }
    }
  }

  /** A newly assigned key ends up last. */
  lemma SetNewIsLast<V>(a: seq<Entry<V>>, k: string, v: V)
    requires k !in Keys(a)
    ensures IsLast(Set(a, k, v), k)
  {
    SetKeys(a, k, v);
    assert Keys(Set(a, k, v))[|a|] == k;
  }

  /** In an array with unique keys, every other key is before the last one. */
  lemma BeforeLast<V>(a: seq<Entry<V>>, x: string, y: string)
    requires UniqueKeys(a) && IsLast(a, y) && x != y && x in Keys(a)
    ensures Before(a, x, y)
  {
    var ks, n := Keys(a), |a| - 1;
    forall i | 0 <= i < n ensures ks[i] != y {
      assert a[i].key != a[n].key;
    }
    FindBeforeLast(ks, x, y);
  }

  /** A key other than the last, present in a sequence whose last key occurs only there, is found before it. */
  lemma FindBeforeLast(ks: seq<string>, x: string, y: string)
    requires |ks| > 0 && ks[|ks| - 1] == y && x != y && x in ks
    requires forall i :: 0 <= i < |ks| - 1 ==> ks[i] != y
    ensures Find(ks, x) < Find(ks, y) == |ks| - 1
  {
    FindIs(ks, y, |ks| - 1);
  }

  /** The position of a key in a slot followed by an array. */
  lemma FindCons<V>(e: Entry<V>, a: seq<Entry<V>>, x: string)
    ensures Find(Keys([e] + a), x) == if e.key == x then 0 else 1 + Find(Keys(a), x)
  {
    KeysCons(e, a);
    assert ([e.key] + Keys(a))[1..] == Keys(a);
  }

  /** A key has a position exactly when it is present. */
  lemma FindPresent<V>(a: seq<Entry<V>>, x: string)
    ensures Find(Keys(a), x) < |a| <==> x in Keys(a)
  {
  }

  /** Removing a third key keeps the relative order of the remaining two. */
  lemma {:induction false} UnsetKeepsOrder<V>(a: seq<Entry<V>>, k: string, x: string, y: string)
    requires Before(a, x, y) && x != k && y != k
    ensures Before(Unset(a, k), x, y)
  {
    var e, tail := a[0], a[1..];
    assert a == [e] + tail;
    FindCons(e, tail, x);
    FindCons(e, tail, y);
    if e.key == k {
      assert Unset(a, k) == tail;
    } else {
      var rest := Unset(tail, k);
      assert Unset(a, k) == [e] + rest;
      FindCons(e, rest, x);
      FindCons(e, rest, y);
      if e.key == x {
        FindPresent(tail, y);
        assert Get(rest, y) == Get(tail, y);
        FindPresent(rest, y);
      } else {
        UnsetKeepsOrder(tail, k, x, y);
      }
    }
  }

  /** In an array with unique keys, reading the key of slot `i` yields slot `i`'s value. */
  lemma {:induction false} GetAt<V>(a: seq<Entry<V>>, i: nat)
    requires UniqueKeys(a) && i < |a|
    ensures Get(a, a[i].key) == Some(a[i].value)
  {
    var e, tail := a[0], a[1..];
    assert a == [e] + tail;
    GetCons(e, tail, a[i].key);
    if i > 0 {
      assert e.key != a[i].key;
      UniqueCons(e, tail);
      assert tail[i - 1] == a[i];
      GetAt(tail, i - 1);
    }
  }

  /** Uniqueness depends on the keys alone. */
  lemma UniqueKeysOfKeys<V, W>(a: seq<Entry<V>>, b: seq<Entry<W>>)
    requires Keys(a) == Keys(b) && UniqueKeys(b)
    ensures UniqueKeys(a)
  {
    assert forall i :: 0 <= i < |a| ==> a[i].key == Keys(b)[i];
  }

  // ----- Properties every value of an array has -----

  /** A value read from an array is one of its slots' values. */
  lemma {:induction false} GetAll<V>(a: seq<Entry<V>>, k: string, P: V -> bool)
    requires forall i :: 0 <= i < |a| ==> P(a[i].value)
    ensures Get(a, k).Some? ==> P(Get(a, k).value)
  {
    if a != [] && a[0].key != k {
      assert forall i :: 0 <= i < |a[1..]| ==> a[1..][i] == a[i + 1];
      GetAll(a[1..], k, P);
    }
  }

  /** Assigning a value with property `P` keeps `P` true of every value. */
  lemma {:induction false} SetAll<V>(a: seq<Entry<V>>, k: string, v: V, P: V -> bool)
    requires forall i :: 0 <= i < |a| ==> P(a[i].value)
    requires P(v)
    ensures forall i :: 0 <= i < |Set(a, k, v)| ==> P(Set(a, k, v)[i].value)
  {
    if a != [] {
      assert forall i :: 0 <= i < |a[1..]| ==> a[1..][i] == a[i + 1];
      if a[0].key == k {
        assert Set(a, k, v) == [Entry(k, v)] + a[1..];
      } else {
        SetAll(a[1..], k, v, P);
        assert Set(a, k, v) == [a[0]] + Set(a[1..], k, v);
      }
    }
  }

  /** `P` holds of the keys of entries `lo` to `hi - 1`, checked from the last one down. */
  predicate KeysHold<V>(P: string -> bool, a: seq<Entry<V>>, lo: nat, hi: nat)
    requires hi <= |a|
  {
    hi <= lo || (P(a[hi - 1].key) && KeysHold(P, a, lo, hi - 1))
  }

  lemma {:induction false} KeysHoldAll<V>(P: string -> bool, a: seq<Entry<V>>, lo: nat, hi: nat)
    requires hi <= |a|
    requires forall u :: lo <= u < hi ==> P(a[u].key)
    ensures KeysHold(P, a, lo, hi)
  {
    if lo < hi {
      KeysHoldAll(P, a, lo, hi - 1);
    }
  }

  /** Assigning to a key that is not present appends a slot at the end. */
  lemma {:induction false} SetNewAppends<V>(a: seq<Entry<V>>, k: string, v: V)
    requires k !in Keys(a)
    ensures Set(a, k, v) == a + [Entry(k, v)]
  {
    if a != [] {
      assert a == [a[0]] + a[1..];
      KeysCons(a[0], a[1..]);
      SetNewAppends(a[1..], k, v);
      assert Set(a, k, v) == [a[0]] + Set(a[1..], k, v);
      ConsSnoc(a, Entry(k, v));
    }
  }

  /** The first slot followed by the rest with one slot appended is the whole with that slot appended. */
  lemma ConsSnoc<T>(a: seq<T>, x: T)
    requires a != []
    ensures [a[0]] + (a[1..] + [x]) == a + [x]
  {
    assert a == [a[0]] + a[1..];
  }

  /** Unsetting the key of the last slot, present nowhere else, drops that slot. */
  lemma {:induction false} UnsetLast<V>(a: seq<Entry<V>>, k: string, v: V)
    requires k !in Keys(a)
    ensures Unset(a + [Entry(k, v)], k) == a
  {
    if a == [] {
      assert [Entry(k, v)][1..] == [];
    } else {
      assert a == [a[0]] + a[1..];
      KeysCons(a[0], a[1..]);
      assert (a + [Entry(k, v)])[1..] == a[1..] + [Entry(k, v)];
      UnsetLast(a[1..], k, v);
    }
  }

  /** The keys of an array with one more slot at the end. */
  lemma KeysSnoc<V>(a: seq<Entry<V>>, e: Entry<V>)
    ensures Keys(a + [e]) == Keys(a) + [e.key]
  {
  }
}
