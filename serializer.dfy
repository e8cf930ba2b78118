/**
  `Generator::styles_parse`: turns the style array into minified CSS text.
  Media queries other than `global` wrap their selectors in `mq{...}`; a
  selector is written `selector{body}` only when its body is non-empty; a
  non-empty string value is one `property:value;` declaration and a list
  value is one declaration per non-empty string element.
 */
module Serializer {
  import opened PhpArray
  import opened StyleMap

  /** What a single string contributes under property `p`: `p:s;`, or nothing when empty or not a string. */
  function ItemText(p: string, item: Value): string
  {
    if item.Str? && item.s != "" then p + ":" + item.s + ";" else ""
  }

  /** The declarations of a list value, element by element in list order. */
  function ItemsText(p: string, items: seq<Value>): string
  {
    if items == [] then ""
    else ItemsText(p, items[..|items| - 1]) + ItemText(p, items[|items| - 1])
  }

  /** The declarations of one property. */
  function DeclText(p: string, v: Value): string
  {
    match v
    case Str(_) => ItemText(p, v)
    case List(items) => ItemsText(p, items)
    case Other => ""
  }

  /** The body of a selector: its properties' declarations in insertion order. */
  function BodyText(props: Props): string
  {
    if props == [] then ""
    else BodyText(props[..|props| - 1]) + DeclText(props[|props| - 1].key, props[|props| - 1].value)
  }

  /** `selector{body}`, or nothing when the body is empty. */
  function BlockText(sel: string, props: Props): string
  {
    var body := BodyText(props);
    if body != "" then sel + "{" + body + "}" else ""
  }

  function SelectorsText(els: Selectors): string
  {
    if els == [] then ""
    else SelectorsText(els[..|els| - 1]) + BlockText(els[|els| - 1].key, els[|els| - 1].value)
  }

  function Open(mq: string): string
  {
    if mq != "global" then mq + "{" else ""
  }

  function Close(mq: string): string
  {
    if mq != "global" then "}" else ""
  }

  /** One media query: its selectors, wrapped unless it is `global`. */
  function MediaText(mq: string, els: Selectors): string
  {
    Open(mq) + SelectorsText(els) + Close(mq)
  }

  function SheetText(s: Sheet): string
  {
    if s == [] then ""
    else SheetText(s[..|s| - 1]) + MediaText(s[|s| - 1].key, s[|s| - 1].value)
  }

  /** The text `styles_parse` returns for an argument that has been through the filter. */
  function Css(arg: CssArg): (r: string)
    ensures arg.NotArray? ==> r == ""
    // The early return for an empty array gives what the loops would give.
    ensures arg.Styles? ==> r == SheetText(arg.sheet)
  {
    if arg.NotArray? || arg.sheet == [] then "" else SheetText(arg.sheet)
  }

  /**
    `styles_parse($css)`. The `kirki_styles_array` filter hook is the
    parameter `filter`. The outer `foreach` over media queries is here; the
    loops nested in it are the helper methods below, each appending to the
    same strings the source appends to.
   */
  method StylesParse(css: CssArg, filter: CssArg -> CssArg) returns (finalCss: string)
    ensures finalCss == Css(filter(css))
    ensures filter(css).NotArray? || filter(css).sheet == [] ==> finalCss == ""
  {
    var arg := filter(css);
    if arg.NotArray? || arg.sheet == [] {
      return "";
    }
    var sheet := arg.sheet;
    finalCss := "";
    for i := 0 to |sheet|
      invariant finalCss == SheetText(sheet[..i])
    {
      finalCss := AppendMedia(finalCss, sheet[i].key, sheet[i].value);
      SheetTextStep(sheet, i);
    }
    assert sheet[..|sheet|] == sheet;
  }

  /** One more media query of the loop appends its text. */
  lemma SheetTextStep(sheet: Sheet, i: nat)
    requires i < |sheet|
    ensures SheetText(sheet[..i + 1]) == SheetText(sheet[..i]) + MediaText(sheet[i].key, sheet[i].value)
  {
    assert sheet[..i + 1][..i] == sheet[..i];
  }

  /** One media query of `styles_parse`: the optional wrapper around the `foreach` over its selectors. */
  method AppendMedia(css: string, mediaQuery: string, styles: Selectors) returns (finalCss: string)
    ensures finalCss == css + MediaText(mediaQuery, styles)
  {
    finalCss := css + Open(mediaQuery);
    for j := 0 to |styles|
      invariant finalCss == css + Open(mediaQuery) + SelectorsText(styles[..j])
    {
      var style := styles[j].key;
      var cssForStyle := SelectorBody(styles[j].value);
      if cssForStyle != "" {
        finalCss := finalCss + (style + "{" + cssForStyle + "}");
      }
      assert styles[..j + 1][..j] == styles[..j];
      ConcatAssoc(css + Open(mediaQuery), SelectorsText(styles[..j]), BlockText(style, styles[j].value));
    }
    assert styles[..|styles|] == styles;
    finalCss := finalCss + Close(mediaQuery);
    ConcatAssoc(css, Open(mediaQuery), SelectorsText(styles));
    ConcatAssoc(css, Open(mediaQuery) + SelectorsText(styles), Close(mediaQuery));
  }

  /** `$css_for_style` for one selector: the `foreach` over its properties. */
  method SelectorBody(styleArray: Props) returns (cssForStyle: string)
    ensures cssForStyle == BodyText(styleArray)
  {
    cssForStyle := "";
    for k := 0 to |styleArray|
      invariant cssForStyle == BodyText(styleArray[..k])
    {
      var property := styleArray[k].key;
      var value := styleArray[k].value;
      if value.Str? && value.s != "" {
        cssForStyle := cssForStyle + (property + ":" + value.s + ";");
      } else if value.List? {
        cssForStyle := AppendItems(cssForStyle, property, value.items);
      }
      assert styleArray[..k + 1][..k] == styleArray[..k];
    }
    assert styleArray[..|styleArray|] == styleArray;
  }

  /** The `foreach` over the elements of a list value. */
  method AppendItems(css: string, property: string, items: seq<Value>) returns (cssForStyle: string)
    ensures cssForStyle == css + ItemsText(property, items)
  {
    cssForStyle := css;
    for n := 0 to |items|
      invariant cssForStyle == css + ItemsText(property, items[..n])
    {
      var subvalue := items[n];
      if subvalue.Str? && subvalue.s != "" {
        cssForStyle := cssForStyle + (property + ":" + subvalue.s + ";");
      }
      ItemsTextStep(property, items, n);
      ConcatAssoc(css, ItemsText(property, items[..n]), ItemText(property, subvalue));
    }
    assert items[..|items|] == items;
  }

  /** One more element of the list adds its declaration at the end. */
  lemma ItemsTextStep(p: string, items: seq<Value>, n: nat)
    requires n < |items|
    ensures ItemsText(p, items[..n + 1]) == ItemsText(p, items[..n]) + ItemText(p, items[n])
  {
    assert items[..n + 1][..n] == items[..n];
  }

  lemma ConcatAssoc(x: string, y: string, z: string)
    ensures x + y + z == x + (y + z)
  {
  }

  // ----- What the serialised text is made of -----

  /** A value that contributes no declaration. */
  predicate Silent(v: Value)
  {
    match v
    case Str(s) => s == ""
    case List(items) => forall n :: 0 <= n < |items| ==> !(items[n].Str? && items[n].s != "")
    case Other => true
  }

  /** The non-empty string elements of a list, in list order. */
  function NonEmptyStrings(items: seq<Value>): seq<string>
  {
    if items == [] then []
    else (if items[0].Str? && items[0].s != "" then [items[0].s] else []) + NonEmptyStrings(items[1..])
  }

  /** `p:s;` for each string, in order. */
  function Decls(p: string, ss: seq<string>): string
  {
    if ss == [] then "" else p + ":" + ss[0] + ";" + Decls(p, ss[1..])
  }

  lemma {:induction false} NonEmptyStringsAppend(a: seq<Value>, b: seq<Value>)
    ensures NonEmptyStrings(a + b) == NonEmptyStrings(a) + NonEmptyStrings(b)
  {
    if a == [] {
      assert a + b == b;
    } else {
      assert (a + b)[1..] == a[1..] + b;
      NonEmptyStringsAppend(a[1..], b);
    }
  }

  lemma {:induction false} DeclsAppend(p: string, a: seq<string>, b: seq<string>)
    ensures Decls(p, a + b) == Decls(p, a) + Decls(p, b)
  {
    if a == [] {
      assert a + b == b;
    } else {
      assert (a + b)[1..] == a[1..] + b;
      DeclsAppend(p, a[1..], b);
    }
  }

  /** A list value yields one declaration per non-empty string element, in list order, and nothing else. */
  lemma {:induction false} ListDeclarations(p: string, items: seq<Value>)
    ensures ItemsText(p, items) == Decls(p, NonEmptyStrings(items))
  {
    if items != [] {
      var init, last := items[..|items| - 1], items[|items| - 1];
      assert items == init + [last];
      calc {
        ItemsText(p, items);
        ItemsText(p, init) + ItemText(p, last);
        { ListDeclarations(p, init); SingleDeclaration(p, last); }
        Decls(p, NonEmptyStrings(init)) + Decls(p, NonEmptyStrings([last]));
        { DeclsAppend(p, NonEmptyStrings(init), NonEmptyStrings([last])); }
        Decls(p, NonEmptyStrings(init) + NonEmptyStrings([last]));
        { NonEmptyStringsAppend(init, [last]); }
        Decls(p, NonEmptyStrings(items));
      }
    }
  }

  lemma SingleDeclaration(p: string, item: Value)
    ensures ItemText(p, item) == Decls(p, NonEmptyStrings([item]))
  {
    assert [item][1..] == [];
    if item.Str? && item.s != "" {
      assert Decls(p, [item.s]) == p + ":" + item.s + ";" + Decls(p, []);
    }
  }

  /** A list contributes nothing exactly when none of its elements is a non-empty string. */
  lemma {:induction false} ItemsSilent(p: string, items: seq<Value>)
    ensures ItemsText(p, items) == "" <==> Silent(List(items))
  {
    if items != [] {
      ItemsSilent(p, items[..|items| - 1]);
    }
  }

  /** A declaration is empty exactly when the value is silent. */
  lemma DeclSilent(p: string, v: Value)
    ensures DeclText(p, v) == "" <==> Silent(v)
  {
    if v.List? {
      ItemsSilent(p, v.items);
    }
  }

  /** A selector body is empty exactly when every one of its values is silent. */
  lemma {:induction false} BodySilent(props: Props)
    ensures BodyText(props) == "" <==> forall k :: 0 <= k < |props| ==> Silent(props[k].value)
  {
    if props != [] {
      var n := |props| - 1;
      BodySilent(props[..n]);
      DeclSilent(props[n].key, props[n].value);
    }
  }

  /** No empty `{}` block: a selector is written exactly when some value has something to say. */
  lemma NoEmptyBlock(sel: string, props: Props)
    ensures BlockText(sel, props) == "" <==> forall k :: 0 <= k < |props| ==> Silent(props[k].value)
    ensures BlockText(sel, props) != "" ==>
      BodyText(props) != "" && BlockText(sel, props) == sel + "{" + BodyText(props) + "}"
  {
    BodySilent(props);
  }

  /** Selectors that all have nothing to say produce no text. */
  lemma {:induction false} SilentSelectors(els: Selectors)
    requires forall j, k :: 0 <= j < |els| && 0 <= k < |els[j].value| ==> Silent(els[j].value[k].value)
    ensures SelectorsText(els) == ""
  {
    if els != [] {
      var n := |els| - 1;
      SilentSelectors(els[..n]);
      BodySilent(els[n].value);
    }
  }

  /** A non-global media query is wrapped exactly once, even when none of its selectors produced output. */
  lemma EmptyMediaQueryStillWrapped(mq: string, els: Selectors)
    requires mq != "global"
    requires forall j, k :: 0 <= j < |els| && 0 <= k < |els[j].value| ==> Silent(els[j].value[k].value)
    ensures MediaText(mq, els) == mq + "{}"
  {
    SilentSelectors(els);
  }

  /** Output follows insertion order: the text of a concatenation of media queries is the concatenation of their texts. */
  lemma {:induction false} SheetTextAppend(a: Sheet, b: Sheet)
    ensures SheetText(a + b) == SheetText(a) + SheetText(b)
  {
    if b == [] {
      assert a + b == a;
    } else {
      var n := |b| - 1;
      assert (a + b)[..|a + b| - 1] == a + b[..n];
      SheetTextAppend(a, b[..n]);
      ConcatAssoc(SheetText(a), SheetText(b[..n]), MediaText(b[n].key, b[n].value));
    }
  }

  /** Within a media query, selector blocks follow the insertion order of selectors. */
  lemma {:induction false} SelectorsTextAppend(a: Selectors, b: Selectors)
    ensures SelectorsText(a + b) == SelectorsText(a) + SelectorsText(b)
  {
    if b == [] {
      assert a + b == a;
    } else {
      var n := |b| - 1;
      assert (a + b)[..|a + b| - 1] == a + b[..n];
      SelectorsTextAppend(a, b[..n]);
      ConcatAssoc(SelectorsText(a), SelectorsText(b[..n]), BlockText(b[n].key, b[n].value));
    }
  }

  /** Within a selector, declarations follow the insertion order of properties. */
  lemma {:induction false} BodyTextAppend(a: Props, b: Props)
    ensures BodyText(a + b) == BodyText(a) + BodyText(b)
  {
    if b == [] {
      assert a + b == a;
    } else {
      var n := |b| - 1;
      assert (a + b)[..|a + b| - 1] == a + b[..n];
      BodyTextAppend(a, b[..n]);
      ConcatAssoc(BodyText(a), BodyText(b[..n]), DeclText(b[n].key, b[n].value));
    }
  }
}
