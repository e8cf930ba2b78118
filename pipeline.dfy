/**
  Worked examples, end to end: a dimensions field resolved into the style
  array, vendor-prefix expansion, and serialisation.
 */
module Pipeline {
  import opened PhpArray
  import opened StyleMap
  import Serializer
  import VendorPrefix
  import Dimensions

  /** `p:s;` for a non-empty string. */
  function Decl(p: string, s: string): string
  {
    p + ":" + s + ";"
  }

  /** A property holding a non-empty string adds its declaration after those of the properties before it. */
  lemma BodyStep(a: Props, p: string, s: string)
    requires s != ""
    ensures Serializer.BodyText(a + [Entry(p, Str(s))]) == Serializer.BodyText(a) + Decl(p, s)
  {
    assert (a + [Entry(p, Str(s))])[..|a|] == a;
  }

  /** A single property holding a non-empty string is one declaration. */
  lemma BodyOfOne(p: string, s: string)
    requires s != ""
    ensures Serializer.BodyText([Entry(p, Str(s))]) == Decl(p, s)
  {
    assert [Entry(p, Str(s))][..0] == [];
  }

  lemma BodyOfTwo(p1: string, s1: string, p2: string, s2: string)
    requires s1 != "" && s2 != ""
    ensures Serializer.BodyText([Entry(p1, Str(s1)), Entry(p2, Str(s2))]) == Decl(p1, s1) + Decl(p2, s2)
  {
    BodyOfOne(p1, s1);
    BodyStep([Entry(p1, Str(s1))], p2, s2);
    assert [Entry(p1, Str(s1))] + [Entry(p2, Str(s2))] == [Entry(p1, Str(s1)), Entry(p2, Str(s2))];
  }

  lemma BodyOfThree(p1: string, s1: string, p2: string, s2: string, p3: string, s3: string)
    requires s1 != "" && s2 != "" && s3 != ""
    ensures Serializer.BodyText([Entry(p1, Str(s1)), Entry(p2, Str(s2)), Entry(p3, Str(s3))])
         == Decl(p1, s1) + Decl(p2, s2) + Decl(p3, s3)
  {
    var a := [Entry(p1, Str(s1)), Entry(p2, Str(s2))];
    BodyOfTwo(p1, s1, p2, s2);
    BodyStep(a, p3, s3);
    assert a + [Entry(p3, Str(s3))] == [Entry(p1, Str(s1)), Entry(p2, Str(s2)), Entry(p3, Str(s3))];
  }

  lemma BodyOfFour(p1: string, s1: string, p2: string, s2: string, p3: string, s3: string, p4: string, s4: string)
    requires s1 != "" && s2 != "" && s3 != "" && s4 != ""
    ensures Serializer.BodyText([Entry(p1, Str(s1)), Entry(p2, Str(s2)), Entry(p3, Str(s3)), Entry(p4, Str(s4))])
         == Decl(p1, s1) + Decl(p2, s2) + Decl(p3, s3) + Decl(p4, s4)
  {
    var a := [Entry(p1, Str(s1)), Entry(p2, Str(s2)), Entry(p3, Str(s3))];
    BodyOfThree(p1, s1, p2, s2, p3, s3);
    BodyStep(a, p4, s4);
    assert a + [Entry(p4, Str(s4))] == [Entry(p1, Str(s1)), Entry(p2, Str(s2)), Entry(p3, Str(s3)), Entry(p4, Str(s4))];
  }

  /** Five properties holding the same non-empty string give five declarations in order. */
  lemma BodyOfFive(p1: string, p2: string, p3: string, p4: string, p5: string, s: string)
    requires s != ""
    ensures Serializer.BodyText([Entry(p1, Str(s)), Entry(p2, Str(s)), Entry(p3, Str(s)), Entry(p4, Str(s)), Entry(p5, Str(s))])
         == Decl(p1, s) + Decl(p2, s) + Decl(p3, s) + Decl(p4, s) + Decl(p5, s)
  {
    var a := [Entry(p1, Str(s)), Entry(p2, Str(s)), Entry(p3, Str(s)), Entry(p4, Str(s))];
    BodyOfFour(p1, s, p2, s, p3, s, p4, s);
    BodyStep(a, p5, s);
    assert a + [Entry(p5, Str(s))] == [Entry(p1, Str(s)), Entry(p2, Str(s)), Entry(p3, Str(s)), Entry(p4, Str(s)), Entry(p5, Str(s))];
  }

  /** The five declarations of `transform: scale(1)` and its copies, spelt out. */
  lemma TransformDecls()
    ensures Decl("-webkit-" + "transform", "scale(1)") == "-webkit-transform:scale(1);"
    ensures Decl("-moz-" + "transform", "scale(1)") == "-moz-transform:scale(1);"
    ensures Decl("-ms-" + "transform", "scale(1)") == "-ms-transform:scale(1);"
    ensures Decl("-o-" + "transform", "scale(1)") == "-o-transform:scale(1);"
    ensures Decl("transform", "scale(1)") == "transform:scale(1);"
  {
  }

  /** `transform: scale(1)` is written as four prefixed declarations followed by the unprefixed one. */
  lemma TransformExpansion()
    ensures Serializer.BodyText(VendorPrefix.PrefixProps([Entry("transform", Str("scale(1)"))]))
         == "-webkit-transform:scale(1);" + "-moz-transform:scale(1);" + "-ms-transform:scale(1);"
          + "-o-transform:scale(1);" + "transform:scale(1);"
  {
    VendorPrefix.PrefixSingleBoth("transform", Str("scale(1)"));
    BodyOfFive("-webkit-" + "transform", "-moz-" + "transform", "-ms-" + "transform", "-o-" + "transform", "transform",
      "scale(1)");
    TransformDecls();
  }

  /** One element in the `global` media query is written as `element{body}` with no wrapper. */
  lemma GlobalSingle(el: string, props: Props)
    requires Serializer.BodyText(props) != ""
    ensures Serializer.Css(Styles(Dimensions.Single("global", el, props))) == el + "{" + Serializer.BodyText(props) + "}"
  {
    var els := [Entry(el, props)];
    assert els[..0] == [];
    assert Serializer.SelectorsText(els) == Serializer.BlockText(el, props);
    assert Serializer.MediaText("global", els) == Serializer.BlockText(el, props);
    var s := Dimensions.Single("global", el, props);
    assert s[..0] == [];
    assert Serializer.SheetText(s) == Serializer.MediaText("global", els);
  }

  /** The value of a dimensions field with its four edges. */
  const Edges: seq<Entry<string>> := [Entry("top", "1"), Entry("right", "2"), Entry("bottom", "3"), Entry("left", "4")]

  /** `process_property_value` leaving values as they are. */
  function Identity(property: string, value: string): string
  {
    value
  }

  lemma EdgesUnique()
    ensures UniqueKeys(Edges)
  {
    forall i, j | 0 <= i < j < |Edges| ensures Edges[i].key != Edges[j].key {
      assert Edges[i].key[0] != Edges[j].key[0];
    }
  }

  /** The rule `{element: '.a', property: 'margin'}`. */
  lemma MarginRule()
    ensures Dimensions.WithDefaults(Dimensions.RawRule(Some(".a"), Some("margin"), None, None, None, None))
         == Dimensions.Rule(".a", "margin", "global", "", "", None)
    ensures Dimensions.Plain(Dimensions.Rule(".a", "margin", "global", "", "", None))
  {
    assert '%' !in "margin";
  }

  /** The declarations the margin rule fans the four edges out into. */
  lemma MarginFanOut()
    ensures Dimensions.FanOut(Dimensions.Rule(".a", "margin", "global", "", "", None), Edges, Identity)
         == [Entry("margin-top", Str("1")), Entry("margin-right", Str("2")),
             Entry("margin-bottom", Str("3")), Entry("margin-left", Str("4"))]
  {
    var rule := Dimensions.Rule(".a", "margin", "global", "", "", None);
    assert Dimensions.OwnName(rule, "top") == "margin-top";
    assert Dimensions.OwnName(rule, "right") == "margin-right";
    assert Dimensions.OwnName(rule, "bottom") == "margin-bottom";
    assert Dimensions.OwnName(rule, "left") == "margin-left";
    assert "" + "1" + "" == "1" && "" + "2" + "" == "2" && "" + "3" + "" == "3" && "" + "4" + "" == "4";
  }

  /** The declarations of the margin example. */
  const MarginProps: Props := [Entry("margin-top", Str("1")), Entry("margin-right", Str("2")),
                               Entry("margin-bottom", Str("3")), Entry("margin-left", Str("4"))]

  lemma MarginResolved()
    ensures var rule := Dimensions.WithDefaults(Dimensions.RawRule(Some(".a"), Some("margin"), None, None, None, None));
      Dimensions.Resolve([], rule, Dimensions.Composite(Edges), Identity) == Dimensions.Single("global", ".a", MarginProps)
  {
    MarginRule();
    EdgesUnique();
    Dimensions.ResolveFanOut(Dimensions.Rule(".a", "margin", "global", "", "", None), Edges, Identity);
    MarginFanOut();
  }

  lemma MarginBody()
    ensures Serializer.BodyText(MarginProps) == "margin-top:1;" + "margin-right:2;" + "margin-bottom:3;" + "margin-left:4;"
  {
    BodyOfFour("margin-top", "1", "margin-right", "2", "margin-bottom", "3", "margin-left", "4");
    assert Decl("margin-top", "1") == "margin-top:1;";
    assert Decl("margin-right", "2") == "margin-right:2;";
    assert Decl("margin-bottom", "3") == "margin-bottom:3;";
    assert Decl("margin-left", "4") == "margin-left:4;";
  }

  /**
    Composite fan-out end to end: the rule `{element: '.a', property:
    'margin'}` on the value `{top: 1, right: 2, bottom: 3, left: 4}` is
    written as four declarations in the value's key order.
   */
  lemma MarginExample()
    ensures var rule := Dimensions.WithDefaults(Dimensions.RawRule(Some(".a"), Some("margin"), None, None, None, None));
      Serializer.Css(Styles(Dimensions.Resolve([], rule, Dimensions.Composite(Edges), Identity)))
        == ".a" + "{" + ("margin-top:1;" + "margin-right:2;" + "margin-bottom:3;" + "margin-left:4;") + "}"
  {
    MarginResolved();
    MarginBody();
    GlobalSingle(".a", MarginProps);
  }
}
