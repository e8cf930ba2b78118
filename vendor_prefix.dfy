/**
  `Generator::add_prefixes`: for every property in the first list it adds
  `-webkit-` and `-moz-` copies, and for every property in the second list
  `-ms-` and `-o-` copies, holding the same value. It works by `unset` and
  keyed assignment on PHP arrays, so the unprefixed property moves to the end
  of its selector, after its copies.
 */
module VendorPrefix {
  import opened PhpArray
  import opened StyleMap

  /** Properties that get `-webkit-` and `-moz-` copies. */
  const WebkitMozProperties: seq<string> := [
    "border-radius", "box-shadow", "box-sizing", "text-shadow",
    "transform", "background-size", "transition", "transition-property"
  ]

  /** Properties that also get `-ms-` and `-o-` copies. */
  const MsOProperties: seq<string> := [
    "transform", "background-size", "transition", "transition-property"
  ]

  /** `unset($props[$p])`, then `$props[$first.$p] = $v; $props[$second.$p] = $v; $props[$p] = $v;` */
  function AddCopies(props: Props, p: string, v: Value, first: string, second: string): (r: Props)
    ensures UniqueKeys(props) ==> UniqueKeys(r)
  {
    var a := Unset(props, p);
    var b := Set(a, first + p, v);
    var c := Set(b, second + p, v);
    SetKeys(a, first + p, v);
    SetKeys(b, second + p, v);
    SetKeys(c, p, v);
    Set(c, p, v)
  }

  /** The body of the innermost `foreach` for one original entry `p => v`. */
  function PrefixStep(props: Props, e: Entry<Value>): (r: Props)
    ensures UniqueKeys(props) ==> UniqueKeys(r)
  {
    var afterFirst :=
      if e.key in WebkitMozProperties then AddCopies(props, e.key, e.value, "-webkit-", "-moz-") else props;
    if e.key in MsOProperties then AddCopies(afterFirst, e.key, e.value, "-ms-", "-o-") else afterFirst
  }

  /** The selector array after the loop has visited the first `k` original entries, in order. */
  function PrefixRun(props: Props, k: nat): (r: Props)
    requires k <= |props|
    ensures UniqueKeys(props) ==> UniqueKeys(r)
  {
    if k == 0 then props
    else PrefixStep(PrefixRun(props, k - 1), props[k - 1])
  }

  /** One selector's properties after expansion: the loop visits a copy of the original array. */
  function PrefixProps(props: Props): Props
  {
    PrefixRun(props, |props|)
  }

  function PrefixSelectors(els: Selectors): (r: Selectors)
    ensures Keys(r) == Keys(els)
  {
    seq(|els|, j requires 0 <= j < |els| => Entry(els[j].key, PrefixProps(els[j].value)))
  }

  /** The expanded sheet: same media queries and selectors, in the same order. */
  function PrefixSheet(s: Sheet): (r: Sheet)
    ensures Keys(r) == Keys(s)
    ensures forall i :: 0 <= i < |s| ==> Keys(r[i].value) == Keys(s[i].value)
  {
    seq(|s|, i requires 0 <= i < |s| => Entry(s[i].key, PrefixSelectors(s[i].value)))
  }

  /** What `add_prefixes` returns: anything that is not an array comes back unchanged. */
  function Prefixed(css: CssArg): CssArg
  {
    match css
    case NotArray => NotArray
    case Styles(s) => Styles(PrefixSheet(s))
  }

  /**
    `add_prefixes($css)`. The `foreach` loops walk a copy of the original
    array while `unset` and keyed assignment rewrite `out`, which stands for
    `$css`.
   */
  method AddPrefixes(css: CssArg) returns (r: CssArg)
    requires css.Styles? ==> WellFormed(css.sheet)
    ensures r == Prefixed(css)
  {
    if css.NotArray? {
      return css;
    }
    var sheet := css.sheet;
    var out := sheet;
    for i := 0 to |sheet|
      invariant |out| == |sheet| && Keys(out) == Keys(sheet)
      invariant forall t :: 0 <= t < |sheet| ==>
        out[t] == if t < i then Entry(sheet[t].key, PrefixSelectors(sheet[t].value)) else sheet[t]
    {
      var mediaQuery := sheet[i].key;
      var elements := sheet[i].value;
      for j := 0 to |elements|
        invariant |out| == |sheet| && Keys(out) == Keys(sheet)
        invariant forall t :: 0 <= t < |sheet| && t != i ==>
          out[t] == if t < i then Entry(sheet[t].key, PrefixSelectors(sheet[t].value)) else sheet[t]
        invariant out[i].key == mediaQuery && |out[i].value| == |elements|
        invariant Keys(out[i].value) == Keys(elements)
        invariant forall u :: 0 <= u < |elements| ==>
          out[i].value[u] == if u < j then Entry(elements[u].key, PrefixProps(elements[u].value)) else elements[u]
      {
        assert UniqueKeys(out) && UniqueKeys(out[i].value) by {
          UniqueKeysOfKeys(out, sheet);
          UniqueKeysOfKeys(out[i].value, elements);
        }
        out := PrefixSelectorAt(out, i, j);
      }
      assert out[i].value == PrefixSelectors(elements);
    }
    assert out == PrefixSheet(sheet);
    r := Styles(out);
  }

  /**
    The innermost `foreach` of `add_prefixes`: walks a copy of the properties
    of selector `j` under media query `i` and rewrites them through
    `$css[$media_query][$element][...]`.
   */
  method PrefixSelectorAt(css: Sheet, i: nat, j: nat) returns (out: Sheet)
    requires i < |css| && j < |css[i].value|
    requires UniqueKeys(css) && UniqueKeys(css[i].value)
    ensures out == Replace(css, i, j, PrefixProps(css[i].value[j].value))
  {
    var mediaQuery := css[i].key;
    var element := css[i].value[j].key;
    var styleArray := css[i].value[j].value;
    out := css;
    assert css[i].value[j := Entry(element, styleArray)] == css[i].value;
    assert css[i := Entry(mediaQuery, css[i].value)] == css;
    for k := 0 to |styleArray|
      invariant out == Replace(css, i, j, PrefixRun(styleArray, k))
    {
      ghost var cur := PrefixRun(styleArray, k);
      ReplaceFacts(css, i, j, cur);
      out := PrefixStepAt(out, i, j, styleArray[k]);
      ReplaceTwice(css, i, j, cur, PrefixStep(cur, styleArray[k]));
    }
  }

  /** The body of the innermost loop, for the original entry `property => value`. */
  method PrefixStepAt(css: Sheet, i: nat, j: nat, e: Entry<Value>) returns (out: Sheet)
    requires i < |css| && j < |css[i].value|
    requires UniqueKeys(css) && UniqueKeys(css[i].value)
    ensures out == Replace(css, i, j, PrefixStep(css[i].value[j].value, e))
  {
    var property, value := e.key, e.value;
    ghost var cur := css[i].value[j].value;
    ReplaceSame(css, i, j);
    out := css;
    if property in WebkitMozProperties {
      out := AddCopiesAt(out, i, j, property, value, "-webkit-", "-moz-");
      cur := AddCopies(cur, property, value, "-webkit-", "-moz-");
    }
    if property in MsOProperties {
      ReplaceFacts(css, i, j, cur);
      out := AddCopiesAt(out, i, j, property, value, "-ms-", "-o-");
      ReplaceTwice(css, i, j, cur, AddCopies(cur, property, value, "-ms-", "-o-"));
    }
  }

  /**
    One `if` block of the innermost loop: `unset` the property, then assign
    its two copies and the property itself, all through
    `$css[$media_query][$element]`.
   */
  method AddCopiesAt(css: Sheet, i: nat, j: nat, property: string, value: Value, first: string, second: string)
    returns (out: Sheet)
    requires i < |css| && j < |css[i].value|
    requires UniqueKeys(css) && UniqueKeys(css[i].value)
    ensures out == Replace(css, i, j, AddCopies(css[i].value[j].value, property, value, first, second))
  {
    var mediaQuery, element := css[i].key, css[i].value[j].key;
    ReplaceSame(css, i, j);
    AddCopiesReplace(css, i, j, css[i].value[j].value, property, value, first, second);
    out := UnsetAt(css, mediaQuery, element, property);
    out := SetAt(out, mediaQuery, element, first + property, value);
    out := SetAt(out, mediaQuery, element, second + property, value);
    out := SetAt(out, mediaQuery, element, property, value);
  }

  lemma ReplaceSame(css: Sheet, i: nat, j: nat)
    requires i < |css| && j < |css[i].value|
    ensures Replace(css, i, j, css[i].value[j].value) == css
  {
    assert css[i].value[j := Entry(css[i].value[j].key, css[i].value[j].value)] == css[i].value;
    assert css[i := Entry(css[i].key, css[i].value)] == css;
  }

  lemma ReplaceTwice(css: Sheet, i: nat, j: nat, props: Props, props': Props)
    requires i < |css| && j < |css[i].value|
    ensures Replace(Replace(css, i, j, props), i, j, props') == Replace(css, i, j, props')
  {
    var r := Replace(css, i, j, props);
    assert r[i].value[j := Entry(css[i].value[j].key, props')] == css[i].value[j := Entry(css[i].value[j].key, props')];
  }

  lemma ReplaceFacts(css: Sheet, i: nat, j: nat, props: Props)
    requires i < |css| && j < |css[i].value|
    requires UniqueKeys(css) && UniqueKeys(css[i].value)
    ensures var r := Replace(css, i, j, props);
      UniqueKeys(r) && UniqueKeys(r[i].value) && r[i].value[j].value == props
  {
    var r := Replace(css, i, j, props);
    UniqueKeysOfKeys(r, css);
    UniqueKeysOfKeys(r[i].value, css[i].value);
  }

  /** The four writes of one `if` block, made through the keys of slot (i, j), rewrite that slot only. */
  lemma AddCopiesReplace(css: Sheet, i: nat, j: nat, props: Props, p: string, v: Value, first: string, second: string)
    requires i < |css| && j < |css[i].value|
    requires UniqueKeys(css) && UniqueKeys(css[i].value)
    ensures
      var mq, el := css[i].key, css[i].value[j].key;
      SetAt(SetAt(SetAt(UnsetAt(Replace(css, i, j, props), mq, el, p), mq, el, first + p, v), mq, el, second + p, v), mq, el, p, v)
      == Replace(css, i, j, AddCopies(props, p, v, first, second))
  {
    var props1 := Unset(props, p);
    var props2 := Set(props1, first + p, v);
    var props3 := Set(props2, second + p, v);
    UnsetAtReplace(css, i, j, props, p);
    SetAtReplace(css, i, j, props1, first + p, v);
    SetAtReplace(css, i, j, props2, second + p, v);
    SetAtReplace(css, i, j, props3, p, v);
  }

  // ----- What the expansion guarantees -----

  const VendorPrefixes: seq<string> := ["-webkit-", "-moz-", "-ms-", "-o-"]

  /** The vendor copies `add_prefixes` creates for property `p`. */
  function Copies(p: string): seq<string>
  {
    (if p in WebkitMozProperties then ["-webkit-" + p, "-moz-" + p] else [])
    + (if p in MsOProperties then ["-ms-" + p, "-o-" + p] else [])
  }

  /** `p => v` is present together with all its copies holding `v`, and every copy comes before `p`. */
  predicate Expanded(r: Props, p: string, v: Value)
  {
    Get(r, p) == Some(v) && forall c :: c in Copies(p) ==> Get(r, c) == Some(v) && Before(r, c, p)
  }

  /** No listed property starts with a dash; every property of the second list is in the first. */
  lemma ListedShape(p: string)
    requires p in WebkitMozProperties || p in MsOProperties
    ensures p in WebkitMozProperties && |p| > 0 && p[0] != '-'
  {
  }

  lemma CopiesMembers(p: string, c: string)
    ensures c in Copies(p) <==>
      (p in WebkitMozProperties && (c == "-webkit-" + p || c == "-moz-" + p))
      || (p in MsOProperties && (c == "-ms-" + p || c == "-o-" + p))
  {
  }

  /** The four copies of a property that does not start with a dash differ from each other and from it. */
  lemma DistinctCopies(p: string)
    requires |p| > 0 && p[0] != '-'
    ensures "-webkit-" + p != p && "-moz-" + p != p && "-ms-" + p != p && "-o-" + p != p
    ensures "-webkit-" + p != "-moz-" + p && "-ms-" + p != "-o-" + p
    ensures "-webkit-" + p != "-ms-" + p && "-webkit-" + p != "-o-" + p
    ensures "-moz-" + p != "-ms-" + p && "-moz-" + p != "-o-" + p
  {
    assert ("-webkit-" + p)[0] == '-' && ("-moz-" + p)[0] == '-' && ("-ms-" + p)[0] == '-' && ("-o-" + p)[0] == '-';
    assert ("-webkit-" + p)[1] == 'w' && ("-moz-" + p)[1] == 'm' && ("-ms-" + p)[1] == 'm' && ("-o-" + p)[1] == 'o';
    assert ("-moz-" + p)[2] == 'o' && ("-ms-" + p)[2] == 's';
  }

  /** A vendor prefix is recognisable from the text it starts: prefixing is injective. */
  lemma PrefixInjective(a: string, b: string, p: string, q: string)
    requires a in VendorPrefixes && b in VendorPrefixes
    requires a + p == b + q
    ensures a == b && p == q
  {
    assert (a + p)[1] == a[1] && (a + p)[2] == a[2];
    assert (b + q)[1] == b[1] && (b + q)[2] == b[2];
    assert a == b;
    assert p == (a + p)[|a|..];
  }

  /** The vendor prefix `c` starts with, when `c` is a copy of `p`. */
  function PrefixOf(p: string, c: string): (a: string)
    requires c in Copies(p)
    ensures a in VendorPrefixes && c == a + p
  {
    CopiesMembers(p, c);
    if c == "-webkit-" + p then "-webkit-"
    else if c == "-moz-" + p then "-moz-"
    else if c == "-ms-" + p then "-ms-"
    else "-o-"
  }

  /** Different properties never share a copy, and every copy starts with a dash. */
  lemma CopiesDisjoint(p: string, q: string, c: string)
    requires c in Copies(p)
    ensures c in Copies(q) ==> p == q
    ensures |c| > 0 && c[0] == '-'
  {
    var a := PrefixOf(p, c);
    assert c[0] == a[0];
    if c in Copies(q) {
      PrefixInjective(a, PrefixOf(q, c), p, q);
    }
  }

  /** `AddCopies` leaves every key other than `p` and its two copies alone. */
  lemma AddCopiesFrame(props: Props, p: string, v: Value, first: string, second: string, q: string)
    requires q != p && q != first + p && q != second + p
    ensures Get(AddCopies(props, p, v, first, second), q) == Get(props, q)
  {
  }

  /** After `AddCopies`, `p` is the last key and it and both copies hold `v`. */
  lemma AddCopiesPlaces(props: Props, p: string, v: Value, first: string, second: string)
    requires UniqueKeys(props)
    requires first + p != p && second + p != p && first + p != second + p
    ensures var r := AddCopies(props, p, v, first, second);
      IsLast(r, p) && Get(r, p) == Some(v) && Get(r, first + p) == Some(v) && Get(r, second + p) == Some(v)
  {
    var r3 := Set(Set(Unset(props, p), first + p, v), second + p, v);
    assert Get(r3, p) == None;
    SetNewIsLast(r3, p, v);
  }

  /** `q` is neither `p`, when `p` is listed, nor one of `p`'s copies: the step for `p` does not write it. */
  predicate Untouched(q: string, p: string)
  {
    (q != p || p !in WebkitMozProperties) && q !in Copies(p)
  }

  /** Keys other than `e`'s listed property and its copies keep their values through the step for `e`. */
  lemma StepFrame(cur: Props, e: Entry<Value>, q: string)
    requires Untouched(q, e.key)
    ensures Get(PrefixStep(cur, e), q) == Get(cur, q)
  {
    var p, v := e.key, e.value;
    if p in WebkitMozProperties {
      CopiesMembers(p, q);
      var r1 := AddCopies(cur, p, v, "-webkit-", "-moz-");
      AddCopiesFrame(cur, p, v, "-webkit-", "-moz-", q);
      if p in MsOProperties {
        AddCopiesFrame(r1, p, v, "-ms-", "-o-", q);
      }
    } else if p in MsOProperties {
      ListedShape(p);
    }
  }

  /** `AddCopies` keeps the relative order of two keys other than `p`. */
  lemma AddCopiesKeepsOrder(props: Props, p: string, v: Value, first: string, second: string, x: string, y: string)
    requires Before(props, x, y) && x != p && y != p
    ensures Before(AddCopies(props, p, v, first, second), x, y)
  {
    var r0 := Unset(props, p);
    UnsetKeepsOrder(props, p, x, y);
    var r1 := Set(r0, first + p, v);
    SetKeepsOrder(r0, first + p, v, x, y);
    var r2 := Set(r1, second + p, v);
    SetKeepsOrder(r1, second + p, v, x, y);
    SetKeepsOrder(r2, p, v, x, y);
  }

  /** The step for `e` keeps the relative order of any two keys other than `e`'s property. */
  lemma StepKeepsOrder(cur: Props, e: Entry<Value>, x: string, y: string)
    requires Before(cur, x, y) && x != e.key && y != e.key
    ensures Before(PrefixStep(cur, e), x, y)
  {
    var p, v := e.key, e.value;
    if p in WebkitMozProperties {
      AddCopiesKeepsOrder(cur, p, v, "-webkit-", "-moz-", x, y);
      if p in MsOProperties {
        AddCopiesKeepsOrder(AddCopies(cur, p, v, "-webkit-", "-moz-"), p, v, "-ms-", "-o-", x, y);
      }
    } else if p in MsOProperties {
      ListedShape(p);
    }
  }

  /** The step for a listed property leaves it expanded. */
  lemma StepExpands(cur: Props, e: Entry<Value>)
    requires UniqueKeys(cur) && e.key in WebkitMozProperties
    ensures Expanded(PrefixStep(cur, e), e.key, e.value)
  {
    var p, v := e.key, e.value;
    ListedShape(p);
    DistinctCopies(p);
    var r1 := AddCopies(cur, p, v, "-webkit-", "-moz-");
    AddCopiesPlaces(cur, p, v, "-webkit-", "-moz-");
    var r := PrefixStep(cur, e);
    if p in MsOProperties {
      assert r == AddCopies(r1, p, v, "-ms-", "-o-");
      AddCopiesPlaces(r1, p, v, "-ms-", "-o-");
      AddCopiesFrame(r1, p, v, "-ms-", "-o-", "-webkit-" + p);
      AddCopiesFrame(r1, p, v, "-ms-", "-o-", "-moz-" + p);
    } else {
      assert r == r1;
    }
    assert UniqueKeys(r);
    forall c | c in Copies(p)
      ensures Get(r, c) == Some(v) && Before(r, c, p)
    {
      CopiesMembers(p, c);
      BeforeLast(r, c, p);
    }
  }

  /** The step for another property keeps an already expanded property expanded. */
  lemma StepKeepsExpanded(cur: Props, e: Entry<Value>, p: string, v: Value)
    requires p in WebkitMozProperties && p != e.key && Expanded(cur, p, v)
    ensures Expanded(PrefixStep(cur, e), p, v)
  {
    if e.key in WebkitMozProperties {
      ListedShape(p);
      ListedShape(e.key);
      forall c | c in Copies(p)
        ensures Get(PrefixStep(cur, e), c) == Some(v) && Before(PrefixStep(cur, e), c, p)
      {
        CopiesDisjoint(p, e.key, c);
        StepFrame(cur, e, c);
        StepKeepsOrder(cur, e, c, p);
      }
      if p in Copies(e.key) {
        CopiesDisjoint(e.key, e.key, p);
      }
      StepFrame(cur, e, p);
    } else {
      if e.key in MsOProperties {
        ListedShape(e.key);
      }
      assert PrefixStep(cur, e) == cur;
    }
  }

  /** Iteration `k` expands its own property when it is listed. */
  lemma RunStepExpands(props: Props, k: nat)
    requires UniqueKeys(props) && 0 < k <= |props|
    requires props[k - 1].key in WebkitMozProperties
    ensures Expanded(PrefixRun(props, k), props[k - 1].key, props[k - 1].value)
  {
    StepExpands(PrefixRun(props, k - 1), props[k - 1]);
  }

  /** Iteration `k` keeps expanded a listed property other than its own. */
  lemma RunStepKeepsExpanded(props: Props, k: nat, p: string, v: Value)
    requires 0 < k <= |props|
    requires p in WebkitMozProperties && p != props[k - 1].key
    requires Expanded(PrefixRun(props, k - 1), p, v)
    ensures Expanded(PrefixRun(props, k), p, v)
  {
    StepKeepsExpanded(PrefixRun(props, k - 1), props[k - 1], p, v);
  }

  /** After `k` iterations a listed property among the first `k` entries is expanded. */
  lemma {:induction false} RunExpands(props: Props, k: nat, t: nat, p: string, v: Value)
    requires UniqueKeys(props) && t < k <= |props|
    requires props[t] == Entry(p, v) && p in WebkitMozProperties
    ensures Expanded(PrefixRun(props, k), p, v)
  {
    if t < k - 1 {
      assert p != props[k - 1].key by { assert props[t].key == p; }
      RunExpands(props, k - 1, t, p, v);
      RunStepKeepsExpanded(props, k, p, v);
    } else {
      RunStepExpands(props, k);
    }
  }

  function UntouchedKey(q: string): string -> bool
  {
    p => Untouched(q, p)
  }

  /** A key that is neither a listed property visited so far nor one of their copies keeps its value. */
  lemma {:induction false} RunFrame(props: Props, k: nat, q: string)
    requires k <= |props|
    requires KeysHold(UntouchedKey(q), props, 0, k)
    ensures Get(PrefixRun(props, k), q) == Get(props, q)
  {
    if k > 0 {
      RunFrame(props, k - 1, q);
      RunStepFrame(props, k, q);
    }
  }

  /** `StepFrame` for iteration `k` of the loop. */
  lemma RunStepFrame(props: Props, k: nat, q: string)
    requires 0 < k <= |props|
    requires Untouched(q, props[k - 1].key)
    ensures Get(PrefixRun(props, k), q) == Get(PrefixRun(props, k - 1), q)
  {
    StepFrame(PrefixRun(props, k - 1), props[k - 1], q);
  }

  /**
    What `add_prefixes` does to one selector, first part: every listed
    property keeps its value and gains its vendor copies with the same value,
    placed before it.
   */
  lemma PrefixPropsExpands(props: Props)
    requires UniqueKeys(props)
    ensures forall t :: 0 <= t < |props| && props[t].key in WebkitMozProperties ==>
      Expanded(PrefixProps(props), props[t].key, props[t].value)
  {
    forall t | 0 <= t < |props| && props[t].key in WebkitMozProperties
      ensures Expanded(PrefixProps(props), props[t].key, props[t].value)
    {
      RunExpands(props, |props|, t, props[t].key, props[t].value);
    }
  }

  /** Second part: every key that is not a copy of an original property keeps its value. */
  lemma PrefixPropsFrame(props: Props, q: string)
    requires UniqueKeys(props)
    requires forall t :: 0 <= t < |props| ==> q !in Copies(props[t].key)
    ensures Get(PrefixProps(props), q) == Get(props, q)
  {
    if t :| 0 <= t < |props| && q == props[t].key && q in WebkitMozProperties {
      RunExpands(props, |props|, t, props[t].key, props[t].value);
      GetAt(props, t);
    } else {
      KeysHoldAll(UntouchedKey(q), props, 0, |props|);
      RunFrame(props, |props|, q);
    }
  }

  /** Third part: the keys afterwards are exactly the original keys plus the copies of the original keys. */
  lemma PrefixPropsKeys(props: Props, q: string)
    requires UniqueKeys(props)
    ensures q in Keys(PrefixProps(props)) <==>
      q in Keys(props) || exists t :: 0 <= t < |props| && q in Copies(props[t].key)
  {
    var r := PrefixProps(props);
    if t :| 0 <= t < |props| && q in Copies(props[t].key) {
      var p := props[t].key;
      CopiesMembers(p, q);
      ListedShape(p);
      RunExpands(props, |props|, t, props[t].key, props[t].value);
      assert Get(r, q).Some?;
    } else {
      PrefixPropsFrame(props, q);
    }
  }

  /** A listed property is never itself a copy: copies start with a dash. */
  lemma ListedNotCopy(props: Props, p: string)
    requires UniqueKeys(props) && p in WebkitMozProperties
    requires p in Keys(PrefixProps(props))
    ensures p in Keys(props)
  {
    PrefixPropsKeys(props, p);
    ListedShape(p);
    if t :| 0 <= t < |props| && p in Copies(props[t].key) {
      CopiesDisjoint(props[t].key, props[t].key, p);
    }
  }

  /**
    Running the expansion a second time changes no property's value: the
    copies it would write already hold the value of the property they copy.
   */
  lemma PrefixPropsIdempotent(props: Props, q: string)
    requires UniqueKeys(props)
    ensures Get(PrefixProps(PrefixProps(props)), q) == Get(PrefixProps(props), q)
  {
    var r := PrefixProps(props);
    if u :| 0 <= u < |r| && q in Copies(r[u].key) {
      var p := r[u].key;
      CopiesMembers(p, q);
      ListedShape(p);
      PrefixPropsExpands(r);
      assert Get(PrefixProps(r), q) == Some(r[u].value);
      assert Keys(r)[u] == p;
      ListedNotCopy(props, p);
      var t :| 0 <= t < |props| && Keys(props)[t] == p;
      PrefixPropsExpands(props);
      assert Expanded(r, p, props[t].value);
      GetAt(r, u);
    } else {
      PrefixPropsFrame(r, q);
    }
  }

  /** Two slots appended after `a` add their keys after `a`'s keys. */
  lemma KeysSnocTwo(a: Props, e1: Entry<Value>, e2: Entry<Value>)
    ensures Keys(a + [e1, e2]) == Keys(a) + [e1.key, e2.key]
  {
  }

  /** Appending a third slot after two; stated apart so that its caller's proof stays small. */
  lemma AppendOneMore(a: Props, e1: Entry<Value>, e2: Entry<Value>, e3: Entry<Value>)
    ensures (a + [e1, e2]) + [e3] == a + [e1, e2, e3]
  {
  }

  /** Assigning the second copy after the first appends it. */
  lemma SecondCopyAppended(a: Props, p: string, v: Value, first: string, second: string)
    requires second + p !in Keys(a) && first + p != second + p
    ensures Set(a + [Entry(first + p, v)], second + p, v) == a + [Entry(first + p, v), Entry(second + p, v)]
  {
    var e1, e2 := Entry(first + p, v), Entry(second + p, v);
    assert second + p !in Keys(a + [e1]) by { KeysSnoc(a, e1); }
    SetNewAppends(a + [e1], second + p, v);
    AppendOneThenOne(a, e1, e2);
  }

  /** Appending two slots one at a time; stated apart so that its caller's proof stays small. */
  lemma AppendOneThenOne(a: Props, e1: Entry<Value>, e2: Entry<Value>)
    ensures (a + [e1]) + [e2] == a + [e1, e2]
  {
  }

  /** Assigning the property after its two copies appends it. */
  lemma PropertyReappended(a: Props, p: string, v: Value, first: string, second: string)
    requires p !in Keys(a) && first + p != p && second + p != p
    ensures Set(a + [Entry(first + p, v), Entry(second + p, v)], p, v)
         == a + [Entry(first + p, v), Entry(second + p, v), Entry(p, v)]
  {
    var e1, e2 := Entry(first + p, v), Entry(second + p, v);
    KeysSnocTwo(a, e1, e2);
    SetNewAppends(a + [e1, e2], p, v);
    AppendOneMore(a, e1, e2, Entry(p, v));
  }

  /**
    On a selector whose last slot is `p` and which holds no copy of `p` yet,
    one `if` block appends the two copies and moves `p` behind them.
   */
  lemma AddCopiesFresh(a: Props, p: string, v: Value, first: string, second: string)
    requires p !in Keys(a) && first + p !in Keys(a) && second + p !in Keys(a)
    requires first + p != p && second + p != p && first + p != second + p
    ensures AddCopies(a + [Entry(p, v)], p, v, first, second)
         == a + [Entry(first + p, v), Entry(second + p, v), Entry(p, v)]
  {
    UnsetLast(a, p, v);
    SetNewAppends(a, first + p, v);
    SecondCopyAppended(a, p, v, first, second);
    PropertyReappended(a, p, v, first, second);
  }

  /** A selector with one property is rewritten by one step of the loop. */
  lemma PrefixPropsOne(e: Entry<Value>)
    ensures PrefixProps([e]) == PrefixStep([e], e)
  {
    assert PrefixRun([e], 0) == [e];
    assert PrefixRun([e], 1) == PrefixStep([e], [e][0]);
  }

  /** For a property of the second list the step runs both `if` blocks. */
  lemma PrefixStepBoth(props: Props, p: string, v: Value)
    requires p in MsOProperties
    ensures PrefixStep(props, Entry(p, v))
         == AddCopies(AddCopies(props, p, v, "-webkit-", "-moz-"), p, v, "-ms-", "-o-")
  {
    ListedShape(p);
  }

  /** Two slots followed by three; stated apart so that its caller's proof stays small. */
  lemma ConcatTwoThree<T>(a: T, b: T, c: T, d: T, e: T)
    ensures [a, b] + [c, d, e] == [a, b, c, d, e]
  {
  }

  /** The first `if` block on a selector holding only the listed `p`. */
  lemma FirstBlockOne(p: string, v: Value)
    requires p in WebkitMozProperties
    ensures AddCopies([Entry(p, v)], p, v, "-webkit-", "-moz-")
         == [Entry("-webkit-" + p, v), Entry("-moz-" + p, v)] + [Entry(p, v)]
  {
    ListedShape(p);
    DistinctCopies(p);
    assert [] + [Entry(p, v)] == [Entry(p, v)];
    AddCopiesFresh([], p, v, "-webkit-", "-moz-");
  }

  /** The second `if` block after the first, on a selector holding only `p` of the second list. */
  lemma SecondBlockOne(p: string, v: Value)
    requires p in MsOProperties
    ensures AddCopies([Entry("-webkit-" + p, v), Entry("-moz-" + p, v)] + [Entry(p, v)], p, v, "-ms-", "-o-")
         == [Entry("-webkit-" + p, v), Entry("-moz-" + p, v)] + [Entry("-ms-" + p, v), Entry("-o-" + p, v), Entry(p, v)]
  {
    ListedShape(p);
    DistinctCopies(p);
    var w, m := Entry("-webkit-" + p, v), Entry("-moz-" + p, v);
    KeysSnocTwo([], w, m);
    AddCopiesFresh([w, m], p, v, "-ms-", "-o-");
  }

  /** A selector holding one property of the second list: all four copies, then the property. */
  lemma PrefixSingleBoth(p: string, v: Value)
    requires p in MsOProperties
    ensures PrefixProps([Entry(p, v)])
         == [Entry("-webkit-" + p, v), Entry("-moz-" + p, v), Entry("-ms-" + p, v), Entry("-o-" + p, v), Entry(p, v)]
  {
    PrefixPropsOne(Entry(p, v));
    PrefixStepBoth([Entry(p, v)], p, v);
    FirstBlockOne(p, v);
    SecondBlockOne(p, v);
    ConcatTwoThree(Entry("-webkit-" + p, v), Entry("-moz-" + p, v), Entry("-ms-" + p, v), Entry("-o-" + p, v), Entry(p, v));
  }

  /** A selector holding one property of the first list only: two copies, then the property. */
  lemma PrefixSingleFirst(p: string, v: Value)
    requires p in WebkitMozProperties && p !in MsOProperties
    ensures PrefixProps([Entry(p, v)]) == [Entry("-webkit-" + p, v), Entry("-moz-" + p, v), Entry(p, v)]
  {
    PrefixPropsOne(Entry(p, v));
    FirstBlockOne(p, v);
  }
}
