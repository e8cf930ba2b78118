# Kirki CSS output core, modelled in Dafny

This project models the part of Kirki's CSS module that turns field output
rules into a minified stylesheet:

- `Dimensions::process_output` resolves one `output` rule of a dimensions
  field against the field's composite value (sub-key => string). It writes
  `prefix . process_property_value(name, value) . suffix` into the shared
  style array `styles[media_query][element][name]`.
- `Generator::styles_parse` serialises the style array
  (media query => selector => property => value) into minified CSS.
- `Generator::add_prefixes` adds `-webkit-`/`-moz-` (and for some
  properties `-ms-`/`-o-`) copies of listed properties.
- The front half of `Generator::css` picks the effective field type,
  normalises a bare `output` into one rule and looks the resolver class up in
  the registry.

PHP arrays are ordered maps. The `PhpArray` module models one as a sequence
of key/value slots: reading finds the key's slot; assigning overwrites an
existing slot in place or appends a new one; `unset` removes the slot. The
`StyleMap` module builds the three-level style array from these and gives
path reads and writes (`$styles[$mq][$el][$p] = $v`, `unset(...)`).

Files:

- `php_array.dfy`: the PHP ordered array.
- `style_map.dfy`: the style array.
- `dimensions.dfy`: `process_output`, as the class `DimensionsOutput` whose
  `styles` field the method `ProcessOutput` updates in place.
- `serializer.dfy`: `styles_parse`, as the method `StylesParse` and its loop
  helpers. They are proved equal to the function `Css`, and the properties
  of the output are proved about `Css`.
- `vendor_prefix.dfy`: `add_prefixes`, as the method `AddPrefixes` with its
  nested loops. It is proved equal to the function `Prefixed`, and the
  properties are proved about `PrefixProps`.
- `dispatch.dfy`: the type and rule normalisation and the registry lookup
  of `css`.
- `pipeline.dfy`: worked examples, end to end, from field value to CSS
  text.

Behaviour of the code worth noting:

- A `choice` with an empty `property` does not make the rule write nothing.
  The choice filter only runs when `property` is truthy
  (src/Field/Dimensions.php:47). Otherwise every sub-key is written under its
  own name (`Dimensions.PropertyName`, `Dimensions.EveryKeyWritten`).
- `%%` substitution runs after the choice override (src/Field/Dimensions.php:54-56),
  so when both apply the templated name wins.
- The rule's target is read from `element`, not `selector`.
- `empty()` and truthiness on `property` are PHP's rules for strings: both
  `""` and `"0"` count as empty (`Dimensions.Falsy`).
- Running `add_prefixes` twice leaves every property's value unchanged
  (`VendorPrefix.PrefixPropsIdempotent`). The order of properties can still
  change, because each visit moves a listed property to the end of its
  selector. Only value idempotence is claimed here.

The serialiser is a function of the style array (`Serializer.StylesParse`
ensures its result is `Css(filter(css))`). So serialising the same array
twice gives the same text.

## Model

| member | source | states |
|---|---|---|
| `PhpArray.Get` | src/Generator.php:183-184 | `$a[$k]` finds a value exactly when `array_key_exists($k, $a)`, that is when `k` is one of the array's keys. |
| `PhpArray.Set` | src/Generator.php:262-264 | Keyed assignment: afterwards the key reads as the new value and every other key reads as before. |
| `PhpArray.SetKeys` | src/Generator.php:262-264 | An existing key keeps its position and a new key is appended last. Unique keys stay unique. |
| `PhpArray.Unset` | src/Generator.php:261 | `unset`: every other key reads as before, the key is gone, unique keys stay unique, and an absent key leaves the array unchanged. |
| `PhpArray.SetKeepsOrder` | src/Generator.php:262-264 | Assignment never reorders the keys already present. |
| `PhpArray.UnsetKeepsOrder` | src/Generator.php:261 | Removing a key keeps the relative order of the remaining keys. |
| `PhpArray.SetNewAppends` | src/Generator.php:262-263 | Assigning to a key that is not present appends exactly one slot at the end. |
| `PhpArray.SetExisting` | src/Field/Dimensions.php:57 | Assigning to the key of slot `i` overwrites slot `i` in place. |
| `PhpArray.UnsetLast` | src/Generator.php:261 | Unsetting the key of the last slot drops that slot and nothing else. |
| `StyleMap.SetAt` | src/Field/Dimensions.php:57 | `$styles[$mq][$el][$p] = $v` makes that path read `$v`. Every other path reads as before. Well-formedness is kept. |
| `StyleMap.SetAtKeys` | src/Field/Dimensions.php:57 | `$styles[$mq][$el][$p] = $v` appends a new media query, element or property last at its level along the written path, where every existing key keeps its place. Every other media query, and every other element under the written media query, is left as it was. |
| `StyleMap.UnsetAt` | src/Generator.php:261 | `unset($css[$mq][$el][$p])` removes only that path. Well-formedness is kept. |
| `Dimensions.WithDefaults` | src/Field/Dimensions.php:29-38 | Each missing rule key gets its own default: `element ''`, `property ''`, `media_query 'global'`, `prefix ''`, `suffix ''`. Each given key, prefix and suffix included, is kept, and `choice` is passed through. |
| `Dimensions.PropertyName` | src/Field/Dimensions.php:46-56 | The written name is the sub-key when `property` is empty, whether or not `choice` is set. It is `property-key` when there is no `%%` and no choice. With a choice and a property, exactly the chosen sub-key is written, under `property`. When `%%` is present it is replaced by the key, and this wins over the choice override. |
| `Dimensions.ReplaceAll` | src/Field/Dimensions.php:55 | `str_replace('%%', k, s)` leaves a template without `%%` unchanged. |
| `Dimensions.ReplaceLeadingToken` | src/Field/Dimensions.php:55 | A template starting with `%%` becomes the key followed by the substituted rest. |
| `Dimensions.ReplacePlainPrefix` | src/Field/Dimensions.php:55 | A leading run of text without `%` is copied unchanged in front of the substituted rest. |
| `Dimensions.TokenTail` | src/Field/Dimensions.php:54 | `false !== strpos(s, '%%')` holds of `s` whenever it holds of `s` without its first character. |
| `Dimensions.TokenInConcat` | src/Field/Dimensions.php:54 | A `%%` found in a concatenation lies in one of its parts or straddles the seam. |
| `Dimensions.ZeroPropertyIsEmpty` | src/Field/Dimensions.php:46-47 | `empty()` counts the property `"0"` as empty, so every sub-key is written under its own name. |
| `Dimensions.NoTokenSurvives` | src/Field/Dimensions.php:55 | When the key has no `%`, no `%%` is left after substitution. |
| `Dimensions.ReplaceExample` | src/Field/Dimensions.php:55 | `border-%%-width` with sub-key `left` becomes `border-left-width`. |
| `Dimensions.Applied` | src/Field/Dimensions.php:44-58 | The loop's writes (a skip via `continue`, or one assignment per sub-key) change nothing outside the rule's media query and element. Well-formedness is kept. |
| `Dimensions.AppliedRead` | src/Field/Dimensions.php:44-58 | Inside the rule's media query and element, each name holds the value of the last write to it, or its old value when there is none. |
| `Dimensions.DimensionsOutput.ProcessOutput` | src/Field/Dimensions.php:28-59 | The new `styles` is the old `styles` with the rule resolved against the value. A non-array value changes nothing. |
| `Dimensions.LastWriteWins` | src/Field/Dimensions.php:57 | A later write to the same (media query, element, name) overwrites an earlier one. |
| `Dimensions.ResolveOtherNames` | src/Field/Dimensions.php:57 | A name that no sub-key resolves to keeps its old value. |
| `Dimensions.EveryKeyWritten` | src/Field/Dimensions.php:44-58 | With no choice filter and no `%%`, every sub-key is stored under `key` or `property-key` as `prefix . process_property_value(name, v) . suffix`. |
| `Dimensions.ChoiceWritesChosen` | src/Field/Dimensions.php:47-53 | With a choice, a property and no `%%` in it, `property` holds the chosen sub-key's stored value. When the value has no such sub-key, `property` is left as it was. |
| `Dimensions.ChoiceWritesNothingElse` | src/Field/Dimensions.php:47-53 | With a choice, a property and no `%%` in it, every other path is left unchanged. |
| `Dimensions.BareRuleWritesGlobal` | src/Field/Dimensions.php:29-57 | A rule with no keys writes each sub-key under its own name, in media query `global` and element `''`, with no prefix or suffix. |
| `Dimensions.ResolveFanOut` | src/Field/Dimensions.php:44-58 | With no choice filter, no `%%` in the property, distinct sub-keys and a non-empty value, resolving into an empty array gives one media query and one element. Under them there is one declaration per sub-key, in the value's key order. |
| `Serializer.StylesParse` | src/Generator.php:198-232 | The text equals `Css` of the filtered argument. It is `""` when the filtered argument is not an array or is empty. |
| `Serializer.AppendMedia` | src/Generator.php:208-230 | One media query appends its selectors' text, wrapped in `mq{`…`}` unless the query is `global`. |
| `Serializer.SelectorBody` | src/Generator.php:211-224 | `$css_for_style` is the declarations of the selector's properties, in insertion order. |
| `Serializer.AppendItems` | src/Generator.php:216-221 | A list value appends the declarations of its elements in list order. |
| `Serializer.ListDeclarations` | src/Generator.php:216-221 | A list value contributes exactly one `property:elem;` per non-empty string element, in order, and nothing for the other elements. |
| `Serializer.DeclSilent` | src/Generator.php:214-222 | A property contributes nothing exactly when its value is an empty string, a non-string scalar, or a list with no non-empty string. |
| `Serializer.BodySilent` | src/Generator.php:213-224 | A selector body is empty exactly when every property in it is silent. |
| `Serializer.NoEmptyBlock` | src/Generator.php:225-227 | A selector is written exactly when its body is non-empty, and then as `selector{body}` with that body. No empty `{}` block is written. |
| `Serializer.SelectorsTextAppend` | src/Generator.php:209-228 | Selector blocks follow the insertion order of selectors: the text of two concatenated selector arrays is the concatenation of their texts. |
| `Serializer.Css` | src/Generator.php:198-232 | A non-array argument gives `""`; an array gives the text of its media queries in order, so an empty array also gives `""`. |
| `Serializer.EmptyMediaQueryStillWrapped` | src/Generator.php:208-230 | A non-global media query is written as `mq{`…`}` exactly once, as `mq{}` even when none of its selectors produces output. |
| `Serializer.SheetTextAppend` | src/Generator.php:208-230 | The output follows the insertion order of media queries: the text of two concatenated arrays is the concatenation of their texts. |
| `Serializer.BodyTextAppend` | src/Generator.php:213-224 | Declarations follow the insertion order of properties. |
| `VendorPrefix.AddPrefixes` | src/Generator.php:240-288 | The in-place rewrite of `$css` by the three nested loops equals `Prefixed`. A non-array argument is returned unchanged. |
| `VendorPrefix.PrefixSelectorAt` | src/Generator.php:244-283 | The innermost loop rewrites only the one selector it walks, and leaves it as `PrefixProps` of its original properties. |
| `VendorPrefix.AddCopies` | src/Generator.php:261-264 | One `if` block keeps a selector's keys unique. |
| `VendorPrefix.AddCopiesPlaces` | src/Generator.php:261-264 | After one `if` block the property is the selector's last key, and it and both copies hold its value. |
| `VendorPrefix.AddCopiesFrame` | src/Generator.php:261-264 | One `if` block leaves every key other than the property and its two copies as it was. |
| `VendorPrefix.PrefixStep` | src/Generator.php:246-282 | The body of the innermost loop keeps a selector's keys unique. |
| `VendorPrefix.StepFrame` | src/Generator.php:246-282 | The body of the innermost loop leaves every key other than the property and its copies as it was. |
| `VendorPrefix.StepExpands` | src/Generator.php:246-282 | After the body of the innermost loop for a listed property, the property holds its value and its copies hold it too, before it. |
| `VendorPrefix.PrefixStepAt` | src/Generator.php:246-282 | The body of the innermost loop, made through `$css[$mq][$el]`, is one `PrefixStep` on that selector. |
| `VendorPrefix.AddCopiesAt` | src/Generator.php:261-264 | One `if` block (`unset` and three assignments through the full path) rewrites only that selector. |
| `VendorPrefix.PrefixSheet` | src/Generator.php:241-287 | The expansion keeps the media queries and, under each, the selectors, in the same order. |
| `VendorPrefix.PrefixPropsExpands` | src/Generator.php:247-281 | Each listed property keeps its value. It gains `-webkit-`/`-moz-` copies, and for the second list also `-ms-`/`-o-` copies, all holding the same value and all placed before it. |
| `VendorPrefix.PrefixPropsFrame` | src/Generator.php:244-283 | A property that is not a vendor copy of an original property keeps its value. |
| `VendorPrefix.PrefixPropsKeys` | src/Generator.php:244-283 | Afterwards the keys are exactly the original keys plus the copies of the listed ones. |
| `VendorPrefix.PrefixPropsIdempotent` | src/Generator.php:240-288 | Expanding twice gives every property the same value as expanding once. |
| `VendorPrefix.AddCopiesFresh` | src/Generator.php:261-264 | On a selector whose last property is `p` and which has no copies yet, one block appends the two copies and moves `p` behind them. |
| `VendorPrefix.PrefixSingleBoth` | src/Generator.php:246-282 | A selector holding one property of the second list becomes `-webkit-`, `-moz-`, `-ms-`, `-o-` copies, then the property. |
| `VendorPrefix.PrefixSingleFirst` | src/Generator.php:246-265 | A selector holding one property of the first list only becomes `-webkit-`, `-moz-` copies, then the property. |
| `Dispatch.EffectiveType` | src/Generator.php:156-157 | The field type is `choices.parent_type` when it is set, and `type` otherwise. |
| `Dispatch.NormaliseOutput` | src/Generator.php:160-167 | A list of rules is kept. A bare `output` becomes exactly one rule with `element` set to it and every other key missing. |
| `Dispatch.ResolverClass` | src/Generator.php:173-185 | A registered type gets its registry entry. Any other type gets the generic `Output` class. |
| `Dispatch.Css` | src/Generator.php:154-185 | The step-by-step assignments produce the effective type, the normalised rules, and the class looked up in the registry after both filter hooks. |
| `Dispatch.DimensionsDispatch` | src/Generator.php:174-185 | With the default registry, a field whose effective type is `kirki-dimensions` (its `type` when no `parent_type` is set, or its `parent_type`) gets the dimensions resolver. |
| `Dispatch.UnknownTypeUsesOutput` | src/Generator.php:173-185 | With the default registry, an unlisted field type falls back to `Output`. |
| `Dispatch.SingleOutputDefaults` | src/Generator.php:160-167 | A bare `output` resolves as a rule for that element in `global`, with an empty property, prefix and suffix. |
| `Pipeline.TransformExpansion` | src/Generator.php:246-282 | `transform: scale(1)` serialises as the `-webkit-`, `-moz-`, `-ms-` and `-o-` declarations, followed by `transform:scale(1);`. |
| `Pipeline.MarginExample` | src/Field/Dimensions.php:44-58 | Rule `{element: .a, property: margin}` on `{top:1, right:2, bottom:3, left:4}` serialises as `.a{margin-top:1;margin-right:2;margin-bottom:3;margin-left:4;}`. |

## Left out

- `process_property_value` and the rest of the `Output` base class are not
  part of this model. The value hook is an uninterpreted function
  parameter (`processPropertyValue`). The margin example uses the identity
  for it.
- The `apply_filters` hooks (`kirki_styles_array`,
  `kirki_output_control_classnames` and the per-config one) are function
  parameters. No property of theirs is assumed.
- `Values::get_sanitized_field_value`, the font lists, the dynamic
  `new $classname(...)`, `get_styles()`, the singleton and the static fields
  of `Generator` are PHP runtime plumbing or foreign code. `Dispatch.Css`
  returns what would be handed to the resolver and stops there.
- The other resolver classes in the registry (background, image, typography,
  multicolor) and the generic `Output` resolver are not part of this model.
- PHP integer array keys are not modelled; all keys are strings. So a numeric
  sub-key turning into an integer and failing `===` against `choice` is not
  captured.
- The dead assignment to `$value` in the serialiser's property loop changes
  nothing and is not modelled.
- The `ABSPATH` guard is not modelled.
- Values other than strings and lists are collapsed into one `Other` case.
  The serialiser ignores them all the same way.
- `Dispatch.NormaliseOutput`: the `'sanitize_callback' => null` key of the
  rule built from a bare `output` is not modelled; the dimensions resolver
  never reads it.
- A non-array value at the media-query or selector level of the style array
  cannot be represented: every level is an array in the model. On such a
  value PHP warns and skips the inner `foreach` (src/Generator.php:210, 243),
  and the serialiser still writes the `mq{`…`}` wrapper around nothing.
- The sub-values of a dimensions field value are strings only
  (`Dimensions.FieldValue`); a nested array or number as a sub-value is not
  represented.
- `VendorPrefix.PrefixPropsIdempotent`: states idempotence of values only. The
  order of properties after a second expansion is not claimed.
- `VendorPrefix.AddPrefixes` requires the style array to have unique keys at
  every level (`WellFormed`). A PHP array always does.
