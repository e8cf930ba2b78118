/**
  The nested style array that field resolvers write into and the generator
  serialises: media query => selector => property => value. Each level is a
  PHP ordered array, so insertion order is iteration order.
 */
module StyleMap {
  import opened PhpArray

  /** A property value: a string, a list of values, or any other PHP scalar. */
  datatype Value = Str(s: string) | List(items: seq<Value>) | Other

  type Props = seq<Entry<Value>>
  type Selectors = seq<Entry<Props>>
  type Sheet = seq<Entry<Selectors>>

  /** The `$css` argument of the generator's functions: a style array, or anything else. */
  datatype CssArg = NotArray | Styles(sheet: Sheet)

  /** Every selector level of a media query has unique keys. */
  predicate SelectorsOk(els: Selectors)
  {
    UniqueKeys(els) && forall j :: 0 <= j < |els| ==> UniqueKeys(els[j].value)
  }

  /** Unique keys at every level, as PHP arrays always have. */
  predicate WellFormed(s: Sheet)
  {
    UniqueKeys(s) && forall i :: 0 <= i < |s| ==> SelectorsOk(s[i].value)
  }

  /** `$styles[$mq][$el][$p]`, `None` when any level is missing. */
  function Lookup(s: Sheet, mq: string, el: string, p: string): Option<Value>
  {
    match Get(s, mq)
    case None => None
    case Some(els) =>
      match Get(els, el)
      case None => None
      case Some(props) => Get(props, p)
  }

  /** `$styles[$mq][$el][$p] = $v`, creating the missing levels as PHP does. */
  function SetAt(s: Sheet, mq: string, el: string, p: string, v: Value): (r: Sheet)
    ensures Lookup(r, mq, el, p) == Some(v)
    ensures forall m, e, q :: (m, e, q) != (mq, el, p) ==> Lookup(r, m, e, q) == Lookup(s, m, e, q)
    ensures WellFormed(s) ==> WellFormed(r)
  {
    var els := GetOr(s, mq, []);
    var props := GetOr(els, el, []);
    SetKeys(props, p, v);
    StoreWellFormed(s, mq, el, props, Set(props, p, v));
    StoreFrame(s, mq, el, props, Set(props, p, v), p);
    Set(s, mq, Set(els, el, Set(props, p, v)))
  }

  /**
    Where the write puts its keys: along the written path a new media query,
    element or property is appended last at its level and every existing key
    keeps its place; every other media query, and every other element under
    the written one, is left as it was.
   */
  lemma SetAtKeys(s: Sheet, mq: string, el: string, p: string, v: Value)
    ensures Keys(SetAt(s, mq, el, p, v)) == if mq in Keys(s) then Keys(s) else Keys(s) + [mq]
    ensures var els, els' := GetOr(s, mq, []), GetOr(SetAt(s, mq, el, p, v), mq, []);
      Keys(els') == if el in Keys(els) then Keys(els) else Keys(els) + [el]
    ensures var props, props' := GetOr(GetOr(s, mq, []), el, []), GetOr(GetOr(SetAt(s, mq, el, p, v), mq, []), el, []);
      Keys(props') == if p in Keys(props) then Keys(props) else Keys(props) + [p]
    ensures forall m :: m != mq ==> Get(SetAt(s, mq, el, p, v), m) == Get(s, m)
    ensures forall e :: e != el ==> Get(GetOr(SetAt(s, mq, el, p, v), mq, []), e) == Get(GetOr(s, mq, []), e)
  {
    var els := GetOr(s, mq, []);
    var props := GetOr(els, el, []);
    var props' := Set(props, p, v);
    var els' := Set(els, el, props');
    SetKeys(props, p, v);
    SetKeys(els, el, props');
    SetKeys(s, mq, els');
  }

  /** `unset($styles[$mq][$el][$p])`; nothing happens when the path is missing. */
  function UnsetAt(s: Sheet, mq: string, el: string, p: string): (r: Sheet)
    ensures forall m, e, q :: (m, e, q) != (mq, el, p) ==> Lookup(r, m, e, q) == Lookup(s, m, e, q)
    ensures WellFormed(s) ==> WellFormed(r) && Lookup(r, mq, el, p) == None
  {
    match Get(s, mq)
    case None => s
    case Some(els) =>
      match Get(els, el)
      case None => s
      case Some(props) =>
        StoreWellFormed(s, mq, el, props, Unset(props, p));
        StoreFrame(s, mq, el, props, Unset(props, p), p);
        Set(s, mq, Set(els, el, Unset(props, p)))
  }

  /** A write through one path leaves a read through any other path as it was. */
  lemma SetAtOther(s: Sheet, mq: string, el: string, p: string, v: Value, m: string, e: string, q: string)
    requires (m, e, q) != (mq, el, p)
    ensures Lookup(SetAt(s, mq, el, p, v), m, e, q) == Lookup(s, m, e, q)
  {
  }

  /** The properties of selector `e` in a selector array, `None` when it is missing. */
  function LookupIn(els: Selectors, e: string, q: string): Option<Value>
  {
    match Get(els, e)
    case None => None
    case Some(props) => Get(props, q)
  }

  /** Reading after replacing the selector array of `mq`. */
  lemma LookupSetMq(s: Sheet, mq: string, els': Selectors, m: string, e: string, q: string)
    ensures Lookup(Set(s, mq, els'), m, e, q) == if m == mq then LookupIn(els', e, q) else Lookup(s, m, e, q)
  {
    if m == mq {
      assert Get(Set(s, mq, els'), mq) == Some(els');
    } else {
      assert Get(Set(s, mq, els'), m) == Get(s, m);
    }
  }

  /** Reading after storing `props'` at `[mq][el]`. */
  lemma LookupStore(s: Sheet, mq: string, el: string, props': Props, m: string, e: string, q: string)
    ensures Lookup(Set(s, mq, Set(GetOr(s, mq, []), el, props')), m, e, q)
         == if m == mq && e == el then Get(props', q) else Lookup(s, m, e, q)
  {
    var els := GetOr(s, mq, []);
    var els' := Set(els, el, props');
    LookupSetMq(s, mq, els', m, e, q);
    if m == mq {
      if e == el {
        assert Get(els', el) == Some(props');
      } else {
        assert Get(els', e) == Get(els, e);
        assert LookupIn(els, e, q) == Lookup(s, mq, e, q);
      }
    }
  }

  /** Storing `props'` at `[mq][el]`, where it differs from what was there only at `p`, changes only the path to `p`. */
  lemma StoreFrame(s: Sheet, mq: string, el: string, props: Props, props': Props, p: string)
    requires props == GetOr(GetOr(s, mq, []), el, [])
    requires forall q :: q != p ==> Get(props', q) == Get(props, q)
    ensures var r := Set(s, mq, Set(GetOr(s, mq, []), el, props'));
      Lookup(r, mq, el, p) == Get(props', p)
      && forall m, e, q :: (m, e, q) != (mq, el, p) ==> Lookup(r, m, e, q) == Lookup(s, m, e, q)
  {
    var r := Set(s, mq, Set(GetOr(s, mq, []), el, props'));
    LookupStore(s, mq, el, props', mq, el, p);
    forall m, e, q | (m, e, q) != (mq, el, p)
      ensures Lookup(r, m, e, q) == Lookup(s, m, e, q)
    {
      LookupStore(s, mq, el, props', m, e, q);
    }
  }

  /**
    Storing properties with unique keys at `[mq][el]` keeps the sheet well
    formed; the properties found there before have unique keys too.
   */
  lemma StoreWellFormed(s: Sheet, mq: string, el: string, props: Props, props': Props)
    requires props == GetOr(GetOr(s, mq, []), el, [])
    requires UniqueKeys(props) ==> UniqueKeys(props')
    ensures WellFormed(s) ==> UniqueKeys(props) && WellFormed(Set(s, mq, Set(GetOr(s, mq, []), el, props')))
  {
    if WellFormed(s) {
      var els := GetOr(s, mq, []);
      GetAll(s, mq, SelectorsOk);
      assert SelectorsOk(els);
      GetAll(els, el, ps => UniqueKeys(ps));
      assert UniqueKeys(props);
      var els' := Set(els, el, props');
      SetAll(els, el, props', ps => UniqueKeys(ps));
      SetKeys(els, el, props');
      assert SelectorsOk(els');
      SetAll(s, mq, els', SelectorsOk);
      SetKeys(s, mq, els');
    }
  }

  /** `s` with the properties of selector `j` of media query `i` replaced by `props`. */
  function Replace(s: Sheet, i: nat, j: nat, props: Props): (r: Sheet)
    requires i < |s| && j < |s[i].value|
    ensures |r| == |s| && Keys(r) == Keys(s)
    ensures |r[i].value| == |s[i].value| && Keys(r[i].value) == Keys(s[i].value)
  {
    var els := s[i].value;
    s[i := Entry(s[i].key, els[j := Entry(els[j].key, props)])]
  }

  /** In a well-formed sheet the keys of slot `i` and of its selector array are unique, whatever slot (i, j) holds. */
  lemma ReplaceUnique(s: Sheet, i: nat, j: nat, props: Props)
    requires i < |s| && j < |s[i].value|
    requires UniqueKeys(s) && UniqueKeys(s[i].value)
    ensures var t := Replace(s, i, j, props);
      UniqueKeys(t) && UniqueKeys(t[i].value)
      && Get(t, s[i].key) == Some(t[i].value) && Get(t[i].value, s[i].value[j].key) == Some(props)
  {
    var t := Replace(s, i, j, props);
    UniqueKeysOfKeys(t, s);
    UniqueKeysOfKeys(t[i].value, s[i].value);
    GetAt(t, i);
    GetAt(t[i].value, j);
  }

  /** Assigning through the keys of slot (i, j) is assigning inside that slot. */
  lemma SetAtReplace(s: Sheet, i: nat, j: nat, props: Props, p: string, v: Value)
    requires i < |s| && j < |s[i].value|
    requires UniqueKeys(s) && UniqueKeys(s[i].value)
    ensures SetAt(Replace(s, i, j, props), s[i].key, s[i].value[j].key, p, v)
         == Replace(s, i, j, Set(props, p, v))
  {
    var t := Replace(s, i, j, props);
    ReplaceUnique(s, i, j, props);
    StoreAt(s, i, j, props, Set(props, p, v));
  }

  /** Unsetting through the keys of slot (i, j) is unsetting inside that slot. */
  lemma UnsetAtReplace(s: Sheet, i: nat, j: nat, props: Props, p: string)
    requires i < |s| && j < |s[i].value|
    requires UniqueKeys(s) && UniqueKeys(s[i].value)
    ensures UnsetAt(Replace(s, i, j, props), s[i].key, s[i].value[j].key, p)
         == Replace(s, i, j, Unset(props, p))
  {
    ReplaceUnique(s, i, j, props);
    StoreAt(s, i, j, props, Unset(props, p));
  }

  /** Storing at the keys of slot (i, j) overwrites that slot. */
  lemma StoreAt(s: Sheet, i: nat, j: nat, props: Props, props': Props)
    requires i < |s| && j < |s[i].value|
    requires UniqueKeys(s) && UniqueKeys(s[i].value)
    ensures var t := Replace(s, i, j, props);
      Set(t, s[i].key, Set(t[i].value, s[i].value[j].key, props')) == Replace(s, i, j, props')
  {
    var t := Replace(s, i, j, props);
    var mq, els := s[i].key, s[i].value;
    var el := els[j].key;
    var els0, els1 := els[j := Entry(el, props)], els[j := Entry(el, props')];
    assert t == s[i := Entry(mq, els0)];
    assert t[i].key == mq && t[i].value == els0 && els0[j].key == el;
    calc {
      Set(t, mq, Set(els0, el, props'));
      { SetExisting(els0, j, props'); UpdateTwice(els, j, Entry(el, props), Entry(el, props')); }
      Set(t, mq, els1);
      { SetExisting(t, i, els1); }
      t[i := Entry(mq, els1)];
      { UpdateTwice(s, i, Entry(mq, els0), Entry(mq, els1)); }
      Replace(s, i, j, props');
    }
  }
}
