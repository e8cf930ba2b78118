/**
  The front half of `Generator::css`: which field type the output is
  resolved for, how a bare `output` becomes a list of rules, and which
  resolver class handles the field.
 */
module Dispatch {
  import opened PhpArray
  import Dimensions

  /** A field's `output`: a list of rules, or a bare value naming the element. */
  datatype FieldOutput = Rules(rules: seq<Dimensions.RawRule>) | Single(element: string)

  /**
    The parts of a field `css` reads: `type`, `choices.parent_type` (`None`
    when `choices` or its `parent_type` is unset), `output` and
    `kirki_config`.
   */
  datatype Field = Field(fieldType: string, parentType: Option<string>, output: FieldOutput, config: string)

  /** What `css` hands to the resolver it instantiates. */
  datatype Dispatched = Dispatched(className: string, fieldType: string, output: seq<Dimensions.RawRule>)

  const OutputClass: string := "\\Kirki\\Modules\\CSS\\Output"
  const DimensionsClass: string := "\\Kirki\\Modules\\CSS\\Field\\Dimensions"

  /** The built-in registry of field types with their own resolver. */
  const DefaultClassnames: seq<Entry<string>> := [
    Entry("kirki-background", "\\Kirki\\Modules\\CSS\\Field\\Background"),
    Entry("kirki-dimensions", DimensionsClass),
    Entry("kirki-image", "\\Kirki\\Modules\\CSS\\Field\\Image"),
    Entry("kirki-typography", "\\Kirki\\Modules\\CSS\\Field\\Typography"),
    Entry("kirki-multicolor", "\\Kirki\\Modules\\CSS\\Field\\Multicolor")
  ]

  /** The field type output is resolved for: `choices.parent_type` when set, else `type`. */
  function EffectiveType(f: Field): (t: string)
    ensures f.parentType.Some? ==> t == f.parentType.value
    ensures f.parentType.None? ==> t == f.fieldType
  {
    match f.parentType
    case Some(p) => p
    case None => f.fieldType
  }

  /** A bare `output` becomes one rule whose only key is `element`. */
  function NormaliseOutput(o: FieldOutput): (rules: seq<Dimensions.RawRule>)
    ensures o.Rules? ==> rules == o.rules
    ensures o.Single? ==> rules == [Dimensions.RawRule(Some(o.element), None, None, None, None, None)]
  {
    match o
    case Rules(rs) => rs
    case Single(e) => [Dimensions.RawRule(Some(e), None, None, None, None, None)]
  }

  /** The registry entry for `t`, or the generic resolver when `t` has none. */
  function ResolverClass(t: string, registry: seq<Entry<string>>): (c: string)
    ensures t in Keys(registry) ==> Get(registry, t) == Some(c)
    ensures t !in Keys(registry) ==> c == OutputClass
  {
    GetOr(registry, t, OutputClass)
  }

  /**
    `css($field)` up to the instantiation of the resolver. The two
    `apply_filters` hooks on the registry are the parameters `classFilter`
    and `configClassFilter`, the second receiving the field's config id.
   */
  method Css(field: Field,
             classFilter: seq<Entry<string>> -> seq<Entry<string>>,
             configClassFilter: (string, seq<Entry<string>>) -> seq<Entry<string>>)
    returns (d: Dispatched)
    ensures d.fieldType == EffectiveType(field)
    ensures d.output == NormaliseOutput(field.output)
    ensures d.className == ResolverClass(EffectiveType(field), configClassFilter(field.config, classFilter(DefaultClassnames)))
  {
    var fieldType := field.fieldType;
    if field.parentType.Some? {
      fieldType := field.parentType.value;
    }
    var output: seq<Dimensions.RawRule>;
    if field.output.Single? {
      output := [Dimensions.RawRule(Some(field.output.element), None, None, None, None, None)];
    } else {
      output := field.output.rules;
    }
    var classname := OutputClass;
    var fieldOutputClasses := classFilter(DefaultClassnames);
    fieldOutputClasses := configClassFilter(field.config, fieldOutputClasses);
    var found := Get(fieldOutputClasses, fieldType);
    if found.Some? {
      classname := found.value;
    }
    d := Dispatched(classname, fieldType, output);
  }

  // ----- Dispatch with the hooks left alone -----

  function NoFilter(registry: seq<Entry<string>>): seq<Entry<string>>
  {
    registry
  }

  function NoConfigFilter(config: string, registry: seq<Entry<string>>): seq<Entry<string>>
  {
    registry
  }

  /** The registry names each field type once. */
  lemma DefaultClassnamesUnique()
    ensures UniqueKeys(DefaultClassnames)
  {
    forall i, j | 0 <= i < j < |DefaultClassnames|
      ensures DefaultClassnames[i].key != DefaultClassnames[j].key
    {
      assert DefaultClassnames[i].key[6] != DefaultClassnames[j].key[6]
          || DefaultClassnames[i].key[7] != DefaultClassnames[j].key[7];
    }
  }

  /** A dimensions field, or any field whose parent type is dimensions, gets the dimensions resolver. */
  lemma DimensionsDispatch(f: Field)
    requires EffectiveType(f) == "kirki-dimensions"
    ensures ResolverClass(EffectiveType(f), NoConfigFilter(f.config, NoFilter(DefaultClassnames))) == DimensionsClass
  {
    DefaultClassnamesUnique();
    GetAt(DefaultClassnames, 1);
  }

  /** A field type the registry does not name falls back to the generic resolver. */
  lemma UnknownTypeUsesOutput(f: Field)
    requires EffectiveType(f) !in ["kirki-background", "kirki-dimensions", "kirki-image", "kirki-typography", "kirki-multicolor"]
    ensures ResolverClass(EffectiveType(f), NoConfigFilter(f.config, NoFilter(DefaultClassnames))) == OutputClass
  {
    assert Keys(DefaultClassnames) == ["kirki-background", "kirki-dimensions", "kirki-image", "kirki-typography", "kirki-multicolor"];
  }

  /** A bare `output` is resolved as one rule for that element, in the `global` media query, with no property. */
  lemma SingleOutputDefaults(e: string)
    ensures Dimensions.WithDefaults(NormaliseOutput(Single(e))[0])
         == Dimensions.Rule(e, "", "global", "", "", None)
  {
  }
}
