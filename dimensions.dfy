/**
  `Dimensions::process_output`: resolves one `output` rule of a dimensions
  field, whose value maps sub-keys (`top`, `left`, `width`, ...) to strings,
  into writes to the shared `styles` array under the rule's media query and
  element.
 */
module Dimensions {
  import opened PhpArray
  import opened StyleMap

  /** One `output` rule as the field declares it: every key may be missing. */
  datatype RawRule = RawRule(
    element: Option<string>,
    property: Option<string>,
    mediaQuery: Option<string>,
    prefix: Option<string>,
    suffix: Option<string>,
    choice: Option<string>)

  /** A rule after `wp_parse_args`; `choice` has no default and may stay unset. */
  datatype Rule = Rule(
    element: string,
    property: string,
    mediaQuery: string,
    prefix: string,
    suffix: string,
    choice: Option<string>)

  /** The field's value: not an array, or an array of sub-key => string. */
  datatype FieldValue = Scalar | Composite(entries: seq<Entry<string>>)

  function OrDefault(o: Option<string>, default: string): string
  {
    match o
    case Some(s) => s
    case None => default
  }

  /** `wp_parse_args` with the defaults `element ''`, `property ''`, `media_query 'global'`, `prefix ''`, `suffix ''`. */
  function WithDefaults(o: RawRule): (r: Rule)
    ensures o.mediaQuery.None? ==> r.mediaQuery == "global"
    ensures o.element.None? ==> r.element == ""
    ensures o.property.None? ==> r.property == ""
    ensures o.prefix.None? ==> r.prefix == ""
    ensures o.suffix.None? ==> r.suffix == ""
    ensures o.element.Some? ==> r.element == o.element.value
    ensures o.property.Some? ==> r.property == o.property.value
    ensures o.mediaQuery.Some? ==> r.mediaQuery == o.mediaQuery.value
    ensures o.prefix.Some? ==> r.prefix == o.prefix.value
    ensures o.suffix.Some? ==> r.suffix == o.suffix.value
    ensures r.choice == o.choice
  {
    Rule(OrDefault(o.element, ""), OrDefault(o.property, ""), OrDefault(o.mediaQuery, "global"),
      OrDefault(o.prefix, ""), OrDefault(o.suffix, ""), o.choice)
  }

  /** PHP's `empty()` on a string, which is also its falsiness: `""` and `"0"`. */
  predicate Falsy(s: string)
  {
    s == "" || s == "0"
  }

  // ----- `%%` templating -----

  /** `strpos($s, '%%') !== false` */
  predicate HasToken(s: string)
  {
    exists i :: 0 <= i < |s| - 1 && s[i] == '%' && s[i + 1] == '%'
  }

  /** `str_replace('%%', $k, $s)`: every `%%`, scanned left to right without overlap, becomes `k`. */
  function ReplaceAll(s: string, k: string): (r: string)
    // A template without `%%` is left as it is.
    ensures !HasToken(s) ==> r == s
  {
    if |s| < 2 then s
    else if s[0] == '%' && s[1] == '%' then k + ReplaceAll(s[2..], k)
    else
      TokenTail(s);
      [s[0]] + ReplaceAll(s[1..], k)
  }

  /** A `%%` after the first character is a `%%` of the whole string. */
  lemma TokenTail(s: string)
    requires |s| > 0
    ensures HasToken(s[1..]) ==> HasToken(s)
  {
    if HasToken(s[1..]) {
      var i :| 0 <= i < |s[1..]| - 1 && s[1..][i] == '%' && s[1..][i + 1] == '%';
      assert s[i + 1] == '%' && s[i + 2] == '%';
    }
  }

  /** When the key has no `%`, a leading `%` of the result comes from a leading `%` of the template. */
  lemma {:induction false} ReplaceLeadingPercent(s: string, k: string)
    requires '%' !in k
    ensures |ReplaceAll(s, k)| > 0 && ReplaceAll(s, k)[0] == '%' ==> |s| > 0 && s[0] == '%'
  {
    if |s| >= 2 && s[0] == '%' && s[1] == '%' {
    } else if |s| >= 2 {
      assert ReplaceAll(s, k)[0] == s[0];
    }
  }

  /** A `%%` in a concatenation lies in one part or straddles the seam. */
  lemma TokenInConcat(a: string, b: string)
    requires HasToken(a + b)
    ensures HasToken(a) || HasToken(b) || (|a| > 0 && |b| > 0 && a[|a| - 1] == '%' && b[0] == '%')
  {
    var i :| 0 <= i < |a + b| - 1 && (a + b)[i] == '%' && (a + b)[i + 1] == '%';
    if i + 1 < |a| {
      assert a[i] == '%' && a[i + 1] == '%';
    } else if i >= |a| {
      assert b[i - |a|] == '%' && b[i - |a| + 1] == '%';
    }
  }

  /** When the key has no `%`, no `%%` survives the substitution. */
  lemma {:induction false} NoTokenSurvives(s: string, k: string)
    requires '%' !in k
    ensures !HasToken(ReplaceAll(s, k))
  {
    if |s| < 2 {
    } else if s[0] == '%' && s[1] == '%' {
      var rest := ReplaceAll(s[2..], k);
      NoTokenSurvives(s[2..], k);
      if HasToken(k + rest) {
        TokenInConcat(k, rest);
      }
    } else {
      var rest := ReplaceAll(s[1..], k);
      NoTokenSurvives(s[1..], k);
      if HasToken([s[0]] + rest) {
        TokenInConcat([s[0]], rest);
        ReplaceLeadingPercent(s[1..], k);
      }
    }
  }

  /** Text without `%` before the template passes through unchanged. */
  lemma {:induction false} ReplacePlainPrefix(a: string, b: string, k: string)
    requires '%' !in a
    ensures ReplaceAll(a + b, k) == a + ReplaceAll(b, k)
  {
    if a == [] {
      assert a + b == b;
    } else {
      assert a[0] in a;
      if |a + b| >= 2 {
        assert (a + b)[1..] == a[1..] + b;
        ReplacePlainPrefix(a[1..], b, k);
        assert [a[0]] + (a[1..] + ReplaceAll(b, k)) == a + ReplaceAll(b, k);
      } else {
        assert b == [] && a + b == a;
      }
    }
  }

  /** A leading `%%` becomes the key. */
  lemma ReplaceLeadingToken(b: string, k: string)
    ensures ReplaceAll("%%" + b, k) == k + ReplaceAll(b, k)
  {
    assert ("%%" + b)[2..] == b;
  }

  /** An example: `border-%%-width` for the `left` sub-key. */
  lemma ReplaceExample()
    ensures ReplaceAll("border-%%-width", "left") == "border-left-width"
  {
    var head, tail := "border-", "-width";
    assert '%' !in head && '%' !in tail;
    calc {
      ReplaceAll("border-%%-width", "left");
      { assert "border-%%-width" == head + ("%%" + tail); }
      ReplaceAll(head + ("%%" + tail), "left");
      { ReplacePlainPrefix(head, "%%" + tail, "left"); }
      head + ReplaceAll("%%" + tail, "left");
      { ReplaceLeadingToken(tail, "left"); }
      head + ("left" + ReplaceAll(tail, "left"));
      { ReplacePlainPrefix(tail, [], "left"); assert tail + [] == tail; }
      head + ("left" + tail);
      "border-left-width";
    }
  }

  // ----- Property names -----

  /** The name a sub-key gets before the choice filter and `%%`: `key`, or `property-key` when there is a property. */
  function OwnName(rule: Rule, key: string): string
  {
    if Falsy(rule.property) then key else rule.property + "-" + key
  }

  /**
    The property name written for sub-key `key`, or `None` when the loop
    skips the key with `continue`.
   */
  function PropertyName(rule: Rule, key: string): (name: Option<string>)
    // Without a property the name is the sub-key, whether or not a choice is set.
    ensures Falsy(rule.property) ==> name == Some(key)
    // A property without `%%` or choice is joined to the sub-key with a dash.
    ensures !Falsy(rule.property) && !HasToken(rule.property) && rule.choice.None? ==>
      name == Some(rule.property + "-" + key)
    // A choice with a property keeps exactly the chosen sub-key, named after the property.
    ensures !Falsy(rule.property) && rule.choice.Some? ==>
      (name.Some? <==> key == rule.choice.value)
    ensures !Falsy(rule.property) && !HasToken(rule.property) && rule.choice == Some(key) ==>
      name == Some(rule.property)
    // `%%` templating applies after the choice filter and overrides its name.
    ensures HasToken(rule.property) && (rule.choice.None? || rule.choice == Some(key)) ==>
      name == Some(ReplaceAll(rule.property, key))
  {
    var base := OwnName(rule, key);
    var chosen :=
      if rule.choice.Some? && !Falsy(rule.property) then
        (if key == rule.choice.value then Some(rule.property) else None)
      else Some(base);
    if chosen.None? then None
    else if HasToken(rule.property) then Some(ReplaceAll(rule.property, key))
    else chosen
  }

  /** The string stored for sub-key value `v` under name `name`. */
  function Stored(rule: Rule, ppv: (string, string) -> string, name: string, v: string): Value
  {
    Str(rule.prefix + ppv(name, v) + rule.suffix)
  }

  /** What the loop body does with one sub-key: skip it, or assign a stored value to a name. */
  function Write(rule: Rule, ppv: (string, string) -> string, sub: Entry<string>): Option<Entry<Value>>
  {
    match PropertyName(rule, sub.key)
    case None => None
    case Some(name) => Some(Entry(name, Stored(rule, ppv, name, sub.value)))
  }

  /** The loop's writes, one per sub-key, in the value's key order. */
  function Writes(rule: Rule, entries: seq<Entry<string>>, ppv: (string, string) -> string): seq<Option<Entry<Value>>>
  {
    seq(|entries|, i requires 0 <= i < |entries| => Write(rule, ppv, entries[i]))
  }

  /** Write `w` assigns to name `q`. */
  predicate WritesTo(w: Option<Entry<Value>>, q: string)
  {
    w.Some? && w.value.key == q
  }

  /** The styles after the first `k` writes under media query `mq` and element `el`. */
  function Applied(st: Sheet, mq: string, el: string, ws: seq<Option<Entry<Value>>>, k: nat): (r: Sheet)
    requires k <= |ws|
    ensures WellFormed(st) ==> WellFormed(r)
    // Nothing outside the media query and element is written.
    ensures forall m, e, q :: (m, e) != (mq, el) ==> Lookup(r, m, e, q) == Lookup(st, m, e, q)
  {
    if k == 0 then st
    else
      var prev := Applied(st, mq, el, ws, k - 1);
      match ws[k - 1]
      case None => prev
      case Some(w) =>
        var r := SetAt(prev, mq, el, w.key, w.value);
        FrameStep(st, mq, el, w.key, w.value, prev, r);
        r
  }

  /** One write leaves other media queries and elements as they were. */
  lemma FrameStep(st: Sheet, mq: string, el: string, name: string, v: Value, prev: Sheet, r: Sheet)
    requires forall m, e, q :: (m, e) != (mq, el) ==> Lookup(prev, m, e, q) == Lookup(st, m, e, q)
    requires r == SetAt(prev, mq, el, name, v)
    ensures forall m, e, q :: (m, e) != (mq, el) ==> Lookup(r, m, e, q) == Lookup(st, m, e, q)
  {
    forall m, e, q | (m, e) != (mq, el)
      ensures Lookup(r, m, e, q) == Lookup(st, m, e, q)
    {
      SetAtOther(prev, mq, el, name, v, m, e, q);
    }
  }

  /**
    What `$styles[mq][el][q]` holds after the first `k` writes: the value of
    the last of them that assigns to `q`, or what it held before when none does.
   */
  function ReadAfter(st: Sheet, mq: string, el: string, ws: seq<Option<Entry<Value>>>, k: nat, q: string): Option<Value>
    requires k <= |ws|
  {
    if k == 0 then Lookup(st, mq, el, q)
    else if WritesTo(ws[k - 1], q) then Some(ws[k - 1].value.value)
    else ReadAfter(st, mq, el, ws, k - 1, q)
  }

  /** Under `mq` and `el`, each name holds the value of the last write to it. */
  lemma {:induction false} AppliedRead(st: Sheet, mq: string, el: string, ws: seq<Option<Entry<Value>>>, k: nat, q: string)
    requires k <= |ws|
    ensures Lookup(Applied(st, mq, el, ws, k), mq, el, q) == ReadAfter(st, mq, el, ws, k, q)
  {
    if k > 0 {
      AppliedRead(st, mq, el, ws, k - 1, q);
      AppliedStep(st, mq, el, ws, k, q);
    }
  }

  /** Write `k - 1`, read back under `mq` and `el`. */
  lemma AppliedStep(st: Sheet, mq: string, el: string, ws: seq<Option<Entry<Value>>>, k: nat, q: string)
    requires 0 < k <= |ws|
    ensures Lookup(Applied(st, mq, el, ws, k), mq, el, q)
         == if WritesTo(ws[k - 1], q) then Some(ws[k - 1].value.value) else Lookup(Applied(st, mq, el, ws, k - 1), mq, el, q)
  {
    match ws[k - 1]
    case None =>
    case Some(w) =>
      if w.key != q {
        SetAtOther(Applied(st, mq, el, ws, k - 1), mq, el, w.key, w.value, mq, el, q);
      }
  }

  /** A name no write assigns to keeps what it held. */
  lemma {:induction false} ReadUnwritten(st: Sheet, mq: string, el: string, ws: seq<Option<Entry<Value>>>, k: nat, q: string)
    requires k <= |ws|
    requires forall u :: 0 <= u < k ==> !WritesTo(ws[u], q)
    ensures ReadAfter(st, mq, el, ws, k, q) == Lookup(st, mq, el, q)
  {
    if k > 0 {
      ReadUnwritten(st, mq, el, ws, k - 1, q);
    }
  }

  /** A name holds the value of write `t` when no later write assigns to it. */
  lemma {:induction false} ReadLast(st: Sheet, mq: string, el: string, ws: seq<Option<Entry<Value>>>, k: nat, t: nat, q: string)
    requires t < k <= |ws|
    requires WritesTo(ws[t], q)
    requires forall u :: t < u < k ==> !WritesTo(ws[u], q)
    ensures ReadAfter(st, mq, el, ws, k, q) == Some(ws[t].value.value)
  {
    if t < k - 1 {
      ReadLast(st, mq, el, ws, k - 1, t, q);
    }
  }

  /** The styles after the loop has visited the first `k` sub-keys, in order. */
  function ResolveFrom(st: Sheet, rule: Rule, entries: seq<Entry<string>>, ppv: (string, string) -> string, k: nat): Sheet
    requires k <= |entries|
  {
    Applied(st, rule.mediaQuery, rule.element, Writes(rule, entries, ppv), k)
  }

  /** The styles after `process_output(rule, value)`. */
  function Resolve(st: Sheet, rule: Rule, value: FieldValue, ppv: (string, string) -> string): Sheet
  {
    match value
    case Scalar => st
    case Composite(entries) => ResolveFrom(st, rule, entries, ppv, |entries|)
  }

  /**
    The resolver object: `styles` is the array it accumulates across rules;
    `processPropertyValue` is the base class's value hook.
   */
  class DimensionsOutput {
    var styles: Sheet
    const processPropertyValue: (string, string) -> string

    predicate Valid()
      reads this
    {
      WellFormed(styles)
    }

    constructor (initial: Sheet, ppv: (string, string) -> string)
      requires WellFormed(initial)
      ensures styles == initial && processPropertyValue == ppv
      ensures Valid()
    {
      styles := initial;
      processPropertyValue := ppv;
    }

    /** `process_output($output, $value)` */
    method ProcessOutput(output: RawRule, value: FieldValue)
      requires Valid()
      modifies this
      ensures styles == Resolve(old(styles), WithDefaults(output), value, processPropertyValue)
      ensures value.Scalar? ==> styles == old(styles)
      ensures Valid()
    {
      var rule := WithDefaults(output);
      if value.Scalar? {
        return;
      }
      var entries := value.entries;
      for k := 0 to |entries|
        invariant styles == ResolveFrom(old(styles), rule, entries, processPropertyValue, k)
        invariant Valid()
      {
        var key := entries[k].key;
        var property := if Falsy(rule.property) then key else rule.property + "-" + key;
        if rule.choice.Some? && !Falsy(rule.property) {
          if key == rule.choice.value {
            property := rule.property;
          } else {
            continue;
          }
        }
        if HasToken(rule.property) {
          property := ReplaceAll(rule.property, key);
        }
        styles := SetAt(styles, rule.mediaQuery, rule.element, property,
          Str(rule.prefix + processPropertyValue(property, entries[k].value) + rule.suffix));
      }
    }
  }

  // ----- What the writes amount to -----

  /** Under the rule's media query and element, a name no sub-key resolves to is not written. */
  lemma ResolveOtherNames(st: Sheet, rule: Rule, entries: seq<Entry<string>>, ppv: (string, string) -> string,
                          k: nat, q: string)
    requires k <= |entries|
    requires forall u :: 0 <= u < k ==> PropertyName(rule, entries[u].key) != Some(q)
    ensures Lookup(ResolveFrom(st, rule, entries, ppv, k), rule.mediaQuery, rule.element, q)
         == Lookup(st, rule.mediaQuery, rule.element, q)
  {
    var ws := Writes(rule, entries, ppv);
    forall u | 0 <= u < k ensures !WritesTo(ws[u], q) {
      assert ws[u] == Write(rule, ppv, entries[u]);
    }
    AppliedRead(st, rule.mediaQuery, rule.element, ws, k, q);
    ReadUnwritten(st, rule.mediaQuery, rule.element, ws, k, q);
  }

  /**
    A name holds the value written by the last sub-key that resolves to it:
    later writes overwrite earlier ones. The sub-keys after `t` and before
    `k` resolve to other names.
   */
  lemma LastWriteWins(st: Sheet, rule: Rule, entries: seq<Entry<string>>, ppv: (string, string) -> string,
                      k: nat, t: nat, q: string)
    requires t < k <= |entries|
    requires PropertyName(rule, entries[t].key) == Some(q)
    requires forall u :: t < u < k ==> PropertyName(rule, entries[u].key) != Some(q)
    ensures Lookup(ResolveFrom(st, rule, entries, ppv, k), rule.mediaQuery, rule.element, q)
         == Some(Stored(rule, ppv, q, entries[t].value))
  {
    var ws := Writes(rule, entries, ppv);
    forall u | t < u < k ensures !WritesTo(ws[u], q) {
      assert ws[u] == Write(rule, ppv, entries[u]);
    }
    assert ws[t] == Write(rule, ppv, entries[t]);
    AppliedRead(st, rule.mediaQuery, rule.element, ws, k, q);
    ReadLast(st, rule.mediaQuery, rule.element, ws, k, t, q);
  }

  /** PHP counts the property `"0"` as empty: every sub-key is written under its own name, whatever the choice. */
  lemma ZeroPropertyIsEmpty(rule: Rule, key: string)
    requires rule.property == "0"
    ensures PropertyName(rule, key) == Some(key)
  {
  }

  /** Different sub-keys have different own names. */
  lemma OwnNameInjective(rule: Rule, a: string, b: string)
    requires OwnName(rule, a) == OwnName(rule, b)
    ensures a == b
  {
    if !Falsy(rule.property) {
      var p := rule.property + "-";
      assert (p + a)[|p|..] == a;
      assert (p + b)[|p|..] == b;
    }
  }

  /** Without a choice filter (or with one but no property) and without `%%`, no later sub-key takes the name of sub-key `t`. */
  lemma LaterKeysOtherNames(rule: Rule, entries: seq<Entry<string>>, t: nat)
    requires UniqueKeys(entries) && t < |entries|
    requires rule.choice.None? || Falsy(rule.property)
    requires !HasToken(rule.property)
    ensures forall u :: t < u < |entries| ==> PropertyName(rule, entries[u].key) != Some(OwnName(rule, entries[t].key))
  {
    var name := OwnName(rule, entries[t].key);
    forall u | t < u < |entries|
      ensures PropertyName(rule, entries[u].key) != Some(name)
    {
      var key := entries[u].key;
      assert PropertyName(rule, key) == Some(OwnName(rule, key));
      if OwnName(rule, key) == name {
        OwnNameInjective(rule, key, entries[t].key);
      }
    }
  }

  /**
    Without a choice filter (or with one but no property) and without `%%`,
    every sub-key is written under its own name, `key` or `property-key`.
   */
  lemma EveryKeyWritten(st: Sheet, rule: Rule, entries: seq<Entry<string>>, ppv: (string, string) -> string, t: nat)
    requires UniqueKeys(entries) && t < |entries|
    requires rule.choice.None? || Falsy(rule.property)
    requires !HasToken(rule.property)
    ensures var name := OwnName(rule, entries[t].key);
      Lookup(Resolve(st, rule, Composite(entries), ppv), rule.mediaQuery, rule.element, name)
        == Some(Stored(rule, ppv, name, entries[t].value))
  {
    LaterKeysOtherNames(rule, entries, t);
    LastWriteWins(st, rule, entries, ppv, |entries|, t, OwnName(rule, entries[t].key));
  }

  /** With a choice and a property, nothing but the entry named after the property is written. */
  lemma ChoiceWritesNothingElse(st: Sheet, rule: Rule, entries: seq<Entry<string>>, ppv: (string, string) -> string,
                                m: string, e: string, q: string)
    requires rule.choice.Some? && !Falsy(rule.property) && !HasToken(rule.property)
    requires (m, e, q) != (rule.mediaQuery, rule.element, rule.property)
    ensures Lookup(Resolve(st, rule, Composite(entries), ppv), m, e, q) == Lookup(st, m, e, q)
  {
    if (m, e) == (rule.mediaQuery, rule.element) {
      forall u | 0 <= u < |entries|
        ensures PropertyName(rule, entries[u].key) != Some(q)
      {
      }
      ResolveOtherNames(st, rule, entries, ppv, |entries|, q);
    }
  }

  /**
    With a choice and a property without `%%`, the entry named after the
    property holds the chosen sub-key's value; without the chosen sub-key it
    is left as it was.
   */
  lemma ChoiceWritesChosen(st: Sheet, rule: Rule, entries: seq<Entry<string>>, ppv: (string, string) -> string)
    requires UniqueKeys(entries)
    requires rule.choice.Some? && !Falsy(rule.property) && !HasToken(rule.property)
    ensures Lookup(Resolve(st, rule, Composite(entries), ppv), rule.mediaQuery, rule.element, rule.property)
      == match Get(entries, rule.choice.value)
         case Some(v) => Some(Stored(rule, ppv, rule.property, v))
         case None => Lookup(st, rule.mediaQuery, rule.element, rule.property)
  {
    var t := Find(Keys(entries), rule.choice.value);
    if t < |entries| {
      GetAt(entries, t);
      ChosenWritten(st, rule, entries, ppv, t);
    } else {
      ChosenMissing(st, rule, entries, ppv);
    }
  }

  /** The chosen sub-key at position `t` is the last write to the property's name. */
  lemma ChosenWritten(st: Sheet, rule: Rule, entries: seq<Entry<string>>, ppv: (string, string) -> string, t: nat)
    requires UniqueKeys(entries) && t < |entries| && Some(entries[t].key) == rule.choice
    requires !Falsy(rule.property) && !HasToken(rule.property)
    ensures Lookup(ResolveFrom(st, rule, entries, ppv, |entries|), rule.mediaQuery, rule.element, rule.property)
      == Some(Stored(rule, ppv, rule.property, entries[t].value))
  {
    forall u | t < u < |entries|
      ensures PropertyName(rule, entries[u].key) != Some(rule.property)
    {
      assert entries[u].key != entries[t].key;
    }
    LastWriteWins(st, rule, entries, ppv, |entries|, t, rule.property);
  }

  /** Without the chosen sub-key the property's name is not written. */
  lemma ChosenMissing(st: Sheet, rule: Rule, entries: seq<Entry<string>>, ppv: (string, string) -> string)
    requires rule.choice.Some? && rule.choice.value !in Keys(entries)
    requires !Falsy(rule.property)
    ensures Lookup(ResolveFrom(st, rule, entries, ppv, |entries|), rule.mediaQuery, rule.element, rule.property)
      == Lookup(st, rule.mediaQuery, rule.element, rule.property)
  {
    forall u | 0 <= u < |entries|
      ensures PropertyName(rule, entries[u].key) != Some(rule.property)
    {
      assert Keys(entries)[u] != rule.choice.value;
    }
    ResolveOtherNames(st, rule, entries, ppv, |entries|, rule.property);
  }

  /** A rule that gives no keys writes each sub-key under its own name in the `global` media query and element `''`. */
  lemma BareRuleWritesGlobal(st: Sheet, entries: seq<Entry<string>>, ppv: (string, string) -> string, t: nat)
    requires UniqueKeys(entries) && t < |entries|
    ensures var rule := WithDefaults(RawRule(None, None, None, None, None, None));
      Lookup(Resolve(st, rule, Composite(entries), ppv), "global", "", entries[t].key)
        == Some(Str(ppv(entries[t].key, entries[t].value)))
  {
    var rule := WithDefaults(RawRule(None, None, None, None, None, None));
    EveryKeyWritten(st, rule, entries, ppv, t);
    var x := ppv(entries[t].key, entries[t].value);
    assert "" + x + "" == x;
  }

  // ----- Fan-out into an empty style array -----

  /** One declaration per sub-key, under its own name, in the value's key order. */
  function FanOut(rule: Rule, entries: seq<Entry<string>>, ppv: (string, string) -> string): Props
  {
    seq(|entries|, i requires 0 <= i < |entries| =>
      Entry(OwnName(rule, entries[i].key), Stored(rule, ppv, OwnName(rule, entries[i].key), entries[i].value)))
  }

  /** Sub-keys resolving to their own names, as they do without a choice filter and without `%%`. */
  predicate Plain(rule: Rule)
  {
    (rule.choice.None? || Falsy(rule.property)) && !HasToken(rule.property)
  }

  lemma PlainName(rule: Rule, key: string)
    requires Plain(rule)
    ensures PropertyName(rule, key) == Some(OwnName(rule, key))
  {
  }

  /** The own name of a sub-key not yet visited is not among the names written so far. */
  lemma FanOutFresh(rule: Rule, entries: seq<Entry<string>>, ppv: (string, string) -> string, k: nat)
    requires UniqueKeys(entries) && k < |entries|
    ensures OwnName(rule, entries[k].key) !in Keys(FanOut(rule, entries[..k], ppv))
  {
    var f := FanOut(rule, entries[..k], ppv);
    forall i | 0 <= i < k ensures Keys(f)[i] != OwnName(rule, entries[k].key) {
      if Keys(f)[i] == OwnName(rule, entries[k].key) {
        assert Keys(f)[i] == OwnName(rule, entries[i].key);
        OwnNameInjective(rule, entries[i].key, entries[k].key);
      }
    }
  }

  lemma FanOutSnoc(rule: Rule, entries: seq<Entry<string>>, ppv: (string, string) -> string, k: nat)
    requires k < |entries|
    ensures FanOut(rule, entries[..k + 1], ppv)
         == FanOut(rule, entries[..k], ppv)
            + [Entry(OwnName(rule, entries[k].key), Stored(rule, ppv, OwnName(rule, entries[k].key), entries[k].value))]
  {
  }

  /** A style array holding one media query with one element. */
  function Single(mq: string, el: string, props: Props): Sheet
  {
    [Entry(mq, [Entry(el, props)])]
  }

  /** Assigning a new property inside the only media query and element appends it there. */
  lemma SetAtSingleNew(mq: string, el: string, props: Props, p: string, v: Value)
    requires p !in Keys(props)
    ensures SetAt(Single(mq, el, props), mq, el, p, v) == Single(mq, el, props + [Entry(p, v)])
  {
    SetNewAppends(props, p, v);
    var props' := props + [Entry(p, v)];
    assert Set([Entry(el, props)], el, props') == [Entry(el, props')];
    assert Set(Single(mq, el, props), mq, [Entry(el, props')]) == Single(mq, el, props');
  }

  /** With sub-keys resolving to their own names, sub-key `k - 1` assigns its stored value to its own name. */
  lemma ResolvePlainStep(st: Sheet, rule: Rule, entries: seq<Entry<string>>, ppv: (string, string) -> string, k: nat)
    requires Plain(rule) && 0 < k <= |entries|
    ensures var name := OwnName(rule, entries[k - 1].key);
      ResolveFrom(st, rule, entries, ppv, k)
        == SetAt(ResolveFrom(st, rule, entries, ppv, k - 1), rule.mediaQuery, rule.element, name,
                 Stored(rule, ppv, name, entries[k - 1].value))
  {
    PlainName(rule, entries[k - 1].key);
    assert Writes(rule, entries, ppv)[k - 1] == Write(rule, ppv, entries[k - 1]);
  }

  /** The styles after the first `k` sub-keys, resolved into an empty array. */
  lemma {:induction false} ResolveFromEmpty(rule: Rule, entries: seq<Entry<string>>, ppv: (string, string) -> string, k: nat)
    requires UniqueKeys(entries) && Plain(rule) && 0 < k <= |entries|
    ensures ResolveFrom([], rule, entries, ppv, k) == Single(rule.mediaQuery, rule.element, FanOut(rule, entries[..k], ppv))
  {
    var name := OwnName(rule, entries[k - 1].key);
    var stored := Stored(rule, ppv, name, entries[k - 1].value);
    ResolvePlainStep([], rule, entries, ppv, k);
    FanOutSnoc(rule, entries, ppv, k - 1);
    if k == 1 {
      ResolveFirst(rule, entries, ppv, name, stored);
    } else {
      ResolveFromEmpty(rule, entries, ppv, k - 1);
      FanOutFresh(rule, entries, ppv, k - 1);
      SetAtSingleNew(rule.mediaQuery, rule.element, FanOut(rule, entries[..k - 1], ppv), name, stored);
    }
  }

  /** The first write into an empty array creates its only media query and element. */
  lemma ResolveFirst(rule: Rule, entries: seq<Entry<string>>, ppv: (string, string) -> string, name: string, v: Value)
    requires 0 < |entries|
    ensures SetAt(ResolveFrom([], rule, entries, ppv, 0), rule.mediaQuery, rule.element, name, v)
         == Single(rule.mediaQuery, rule.element, FanOut(rule, entries[..0], ppv) + [Entry(name, v)])
  {
    assert FanOut(rule, entries[..0], ppv) == [];
    assert [] + [Entry(name, v)] == [Entry(name, v)];
    SetAtSingleNew(rule.mediaQuery, rule.element, [], name, v);
    assert SetAt([], rule.mediaQuery, rule.element, name, v)
        == SetAt(Single(rule.mediaQuery, rule.element, []), rule.mediaQuery, rule.element, name, v);
  }

  /**
    Composite fan-out: without a choice filter and without `%%`, resolving a
    composite value into an empty style array gives one media query, one
    element, and one declaration per sub-key in the value's key order.
   */
  lemma ResolveFanOut(rule: Rule, entries: seq<Entry<string>>, ppv: (string, string) -> string)
    requires UniqueKeys(entries) && Plain(rule) && |entries| > 0
    ensures Resolve([], rule, Composite(entries), ppv) == Single(rule.mediaQuery, rule.element, FanOut(rule, entries, ppv))
  {
    ResolveFromEmpty(rule, entries, ppv, |entries|);
    assert entries[..|entries|] == entries;
  }
}
