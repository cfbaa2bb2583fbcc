# nb-token in Dafny

A model of the `nb.token` AngularJS module: the `nbToken` service and the
`nbTokenConfig` provider. The service keeps a tree of token values, reads
and writes it by delimited key paths (`site:name`), resets it to the
configured defaults and fills `[site:name]`-style placeholders in strings
and in whole objects. The provider holds the delimiter and the defaults.
Its `set` merges shallowly (with `angular.extend`) in the src build and
deeply (with a bundled copy of jQuery's `extend`) in the dist build.

Modules, in dependency order:

- `OrderedMap` (`ordered_map.dfy`): insertion-ordered string-keyed maps. They
  hold object members and the flat placeholder map, and `Merge` is
  `_.extend` on flat maps.
- `JsValue` (`js_value.dfy`): JavaScript values as one datatype (`undefined`,
  `null`, booleans, integers, strings, arrays, plain and other objects),
  with member read/write and path walks.
- `JsString` (`js_string.dfy`): the string built-ins the code uses. These are
  `indexOf`, `replace` with a string pattern (first occurrence only, with
  `$` patterns expanded), `split` and `join`.
- `TokenFlatten` (`flatten.dfy`): `getReplaceTokens`, as a function and as
  the method that runs its loop. It is proved against a reference: the
  leaves of the tree in visiting order.
- `Substitution` (`substitution.dfy`): `replace(obj, tokens)`. A fold of
  first-occurrence replacement over the token map, and the member-by-member
  rewrite of objects and arrays. A `null` anywhere makes the call throw;
  that is modelled as `None`.
- `LodashPath` (`lodash_path.dfy`): `_.get`/`_.set` over a path split on a
  delimiter.
- `NbToken` (`token_service.dfy`): the service, as a class whose state is the
  token tree and the `initialized` flag.
- `JqExtend` (`extend.dfy`): the dist build's `isPlainObject` and
  `extend`. The function specification is proved equal to the loop-and-
  recursion method, and the merge properties are proved about it.
- `NbTokenConfig` (`token_config.dfy`): the provider in both builds, as two
  classes.

The service code in `dist/js/nb-token.js` is the same as in
`src/js/nb-token.js`, apart from line 32. It is modelled once, and the
table cites the src lines.

Behaviour of the code worth knowing:

- `replace` replaces only the first occurrence of each placeholder, as
  `String.prototype.replace` does with a string pattern.
  `Substitution.FirstOccurrenceOnly` shows `"[a:b]-[a:b]"` becoming
  `"Y-[a:b]"`.
- A token map passed to `replace` is used as it is, as a flat map. It is
  never flattened as a tree.
- No path is rejected: `get`, `set` and `clear` validate nothing, so there
  is no invalid-path error.
- `clear` passes no delimiter to `_.set`, unlike `get` and `set`. Which
  separator nb.lodash then uses is not visible here. Under the assumed
  default `.`, a `:`-delimited path is one key, so `clear("site:name")`
  writes a top-level key. A `get` that only splits the path, as modelled
  here, still finds the old value on the same path
  (`LodashPath.ClearWithDefaultDelimiter`). A `get` that first tries the
  whole path as one own key, as lodash's does, would find the written key
  and answer the default instead.
- The dist build's `extend` turns arrays into index-keyed objects (see
  Findings). So the dist `set` stores `{tags: ['a', 'b']}` as
  `tags: {"0": 'a', "1": 'b'}` (`NbTokenConfig.DeepSetStoresArrayAsObject`).
  The dist provider is modelled with the target check as a parameter, and
  its properties are proved for both checks.

## Model

| member | source | states |
|---|---|---|
| JsString.IndexOf | src/js/nb-token.js:103 | the index found is an occurrence with none before it; there is none exactly when the pattern occurs nowhere |
| JsString.Expand | src/js/nb-token.js:103 | a replacement without `$` is inserted as it is |
| JsString.ReplaceFirst | src/js/nb-token.js:103 | a string without the pattern is unchanged; the text before the first occurrence is kept |
| JsString.ReplaceFirstAt | src/js/nb-token.js:103 | with a `$`-free replacement the result is the text before the first occurrence, the replacement, then the text after it |
| JsString.ReplaceFirstKeepsLater | src/js/nb-token.js:103 | a later occurrence that does not overlap the first one survives, shifted by the change in length |
| JsString.FirstOccurrenceOf | src/js/nb-token.js:103 | an occurrence whose first character appears nowhere earlier is the one `indexOf` finds |
| JsString.JoinAppend | src/js/nb-token.js:70 | joining two non-empty paths one after the other is joining each with the delimiter between them, so a member's path is its parent's path, the delimiter and its key |
| JsString.SplitJoin | src/js/nb-token.js:70 | splitting a path joined with a one-character delimiter that no key contains gives the path back |
| JsString.JoinSplit | src/js/nb-token.js:70 | joining the pieces of a split with the same delimiter gives the string back |
| JsString.JoinInjective | src/js/nb-token.js:70 | different delimiter-free paths join to different strings, so they get different placeholders |
| JsString.SplitWithout | src/js/nb-token.js:172 | a string without the delimiter splits into itself alone |
| OrderedMap.MergeFind | src/js/nb-token.js:65 | `_.extend` of a flat map: each key holds the last value the source gives it, and the target's value for keys the source lacks |
| OrderedMap.MergeUnique | src/js/nb-token.js:65 | `_.extend` into a map with unique keys keeps them unique |
| JsValue.ToString | src/js/nb-token.js:100 | a string is itself; a number's form starts with `-` exactly when negative, and a non-negative one reads back as the number |
| JsValue.Truthy | dist/js/nb-token.js:204 | every object is truthy, so the fallback to `{}` never replaces an object; `undefined` and `null` are falsy |
| TokenFlatten.Flatten | src/js/nb-token.js:57-76 | a leaf (any non-object, arrays included) reached by a path yields exactly one entry; the root call on a non-object yields none |
| TokenFlatten.GetReplaceTokens | src/js/nb-token.js:57-76 | a fresh map, then the forEach over an object's members or the single leaf entry, computes `Flatten` |
| TokenFlatten.GetMemberTokens | src/js/nb-token.js:64-66 | the forEach over an object's members computes the map `FlattenMembers` gives after all of them |
| TokenFlatten.ExtendWithMember | src/js/nb-token.js:65 | one callback of the forEach extends the map after `i` members to the map after `i + 1` |
| TokenFlatten.FlattenUnique | src/js/nb-token.js:64-66 | the flattened map has no two entries for one placeholder |
| TokenFlatten.FlattenIsLastLeafWins | src/js/nb-token.js:60-72 | looking up a placeholder gives the formatted value of the last leaf visited with that placeholder, and nothing when no leaf has it; arrays are leaves and empty objects contribute nothing |
| TokenFlatten.RootFlatten | src/js/nb-token.js:57-63 | a non-object root yields the empty map; the root never contributes an entry of its own |
| TokenFlatten.FlattenOneEntryPerLeaf | src/js/nb-token.js:60-72 | when leaves have pairwise distinct placeholders, the map is exactly one entry per leaf in visiting order |
| Substitution.Substitute | src/js/nb-token.js:102-104 | a string in which no placeholder occurs is returned unchanged |
| Substitution.ReplaceString | src/js/nb-token.js:100-105 | the loop over the token map computes `Substitute` of the string form |
| Substitution.ReplaceSpec | src/js/nb-token.js:85-108 | fails (TypeError) exactly when a `null` is inside; otherwise `undefined` stays `undefined`, arrays keep their length, objects keep kind and keys in order, and other values become strings |
| Substitution.ReplaceItems | src/js/nb-token.js:94-98 | the first n elements replaced: fails exactly when one holds a `null`; otherwise n results of the same shape |
| Substitution.ReplaceMembers | src/js/nb-token.js:94-98 | the first n members replaced: fails exactly when one holds a `null`; otherwise the same keys in order with values of the same shape |
| Substitution.ReplaceValue | src/js/nb-token.js:85-108 | the recursive method computes `ReplaceSpec`: `undefined` as it is, an object or array through its forEach, any other value through its string form |
| Substitution.ReplaceArray | src/js/nb-token.js:94-98 | the forEach over an array, replacing each element in index order by the recursive call's result, computes `ReplaceSpec`, and `None` when an element holds `null` |
| Substitution.ReplaceObject | src/js/nb-token.js:94-98 | the forEach over an object, replacing each member's value in key order by the recursive call's result, computes `ReplaceSpec`, and `None` when a member holds `null` |
| Substitution.FirstOccurrenceOnly | src/js/nb-token.js:102-104 | `"[a:b]-[a:b]"` with `[a:b]` mapped to `Y` becomes `"Y-[a:b]"` |
| Substitution.DollarPatternInValue | src/js/nb-token.js:103 | a token value `$&$&` inserts the placeholder twice |
| LodashPath.GetPath | src/js/nb-token.js:144-146 | the walked value when it is defined, and the default exactly when the walk ends on `undefined` |
| LodashPath.Get | src/js/nb-token.js:145 | the value at the path the token splits into, or the default exactly where that value is `undefined` |
| LodashPath.Set | src/js/nb-token.js:161 | a non-object root is left alone, an object root stays an object, and the value is found at the path afterwards whenever `set` can reach it |
| LodashPath.Container | src/js/nb-token.js:160-162 | what `set` creates where the path meets `null` or `undefined` is an object or an array |
| LodashPath.SetPath | src/js/nb-token.js:160-162 | a root that is not an object is left as it is; an object root stays an object |
| LodashPath.GetAfterSet | src/js/nb-token.js:144-162 | `get` after `set` on the same reachable path gives the value set |
| LodashPath.ClearGivesDefault | src/js/nb-token.js:171-173 | after writing `undefined` at a reachable path, `get` there gives its default |
| LodashPath.SetLeavesOthers | src/js/nb-token.js:160-162 | `set` changes nothing at a path that leaves its own path at an object member |
| LodashPath.GetJoinedPath | src/js/nb-token.js:144-146 | a path string joined with a one-character delimiter no key contains reads the value at that key path |
| LodashPath.ClearWithDefaultDelimiter | src/js/nb-token.js:171-173 | `clear("site:name")` adds a top-level key `site:name` holding `undefined`, and a split-only `get("site:name")` still gives the old name (lodash's whole-path lookup is not modelled) |
| NbToken.TokenService.constructor | src/js/nb-token.js:40-45 | no tokens yet, not initialized, with the configured delimiter, defaults and formatter |
| NbToken.TokenService.Reset | src/js/nb-token.js:113-115 | the tokens become the defaults, discarding earlier changes |
| NbToken.TokenService.Init | src/js/nb-token.js:122-133 | answers true; resets the tokens on the first call only and leaves them alone afterwards |
| NbToken.TokenService.Get | src/js/nb-token.js:144-146 | `_.get` on the live tokens with the configured delimiter |
| NbToken.TokenService.GetAll | src/js/nb-token.js:151-153 | the live tokens |
| NbToken.TokenService.Set | src/js/nb-token.js:160-162 | the tokens become `_.set` of the old ones with the configured delimiter, which is also the answer |
| NbToken.TokenService.Clear | src/js/nb-token.js:171-173 | the tokens become `_.set` of `undefined` with the default delimiter, which is also the answer |
| NbToken.TokenService.Replace | src/js/nb-token.js:85-108 | `replace` with a given map uses it as it is; without one it uses the flattened live tokens |
| NbToken.SiteEntry | src/js/nb-token.js:57-76 | `{site: {name: 'Acme'}}` flattens to the single entry `[site:name]` holding the formatted name |
| NbToken.ReplaceFromTokenTree | src/js/nb-token.js:90-104 | with those tokens and no map given, `"About [site:name]"` becomes `"About "` plus the formatted name |
| JqExtend.IsPlainObject | dist/js/nb-token.js:186-192 | only a truthy object that is not an array is a plain object |
| JqExtend.Normalize | dist/js/nb-token.js:218-221 | the target is always an object afterwards (a plain one as written); plain objects are kept and non-objects become `{}` |
| JqExtend.MergeKey | dist/js/nb-token.js:232-258 | one key visited keeps an object target an object of the same kind and an array an array |
| JqExtend.MergeSource | dist/js/nb-token.js:232-258 | one source merged keeps the target's kind |
| JqExtend.MergeArgs | dist/js/nb-token.js:228-260 | the sources merged left to right keep the target's kind |
| JqExtend.ExtendSpec | dist/js/nb-token.js:202-264 | the result is always an object, and a plain one as written |
| JqExtend.MergeSourceInto | dist/js/nb-token.js:232-258 | the key loop with its recursive calls computes `MergeSource` |
| JqExtend.Extend | dist/js/nb-token.js:202-264 | the flag and target handling and the source loop compute `ExtendSpec` |
| JqExtend.ChildAfterMergeKey | dist/js/nb-token.js:233-257 | visiting a key changes that key only |
| JqExtend.ChildAfterMerge | dist/js/nb-token.js:232-258 | after an object source each key holds what the source's value makes of the target's; keys the source lacks are untouched |
| JqExtend.SuppliedWins | dist/js/nb-token.js:242-257 | in a deep merge the source's value wins at every path where it supplies one |
| JqExtend.UnsuppliedSurvives | dist/js/nb-token.js:242-257 | in a deep merge the target keeps every value the source does not reach |
| JqExtend.ExtendDeepIntoEmpty | dist/js/nb-token.js:209-216 | `extend(true, {}, a, b)` merges `a` and then `b` deeply into `{}` |
| JqExtend.ExtendFalseIsTarget | dist/js/nb-token.js:204-216 | a leading `false` is not a flag: it is a falsy target, replaced by `{}`, and the merge is shallow |
| JqExtend.ExtendSingleArgument | dist/js/nb-token.js:223-226 | a single plain-object argument is both the target and the source |
| JqExtend.NullSourceSkipped | dist/js/nb-token.js:228-230 | a `null` or `undefined` source at any position changes nothing: the merge equals the merge without it |
| JqExtend.MergeArgsFrom | dist/js/nb-token.js:228 | the source loop depends only on the arguments still to come |
| JqExtend.IndexKeysDistinct | dist/js/nb-token.js:232 | distinct array indices enumerate as distinct keys |
| JqExtend.ArrayIntoObject | dist/js/nb-token.js:242-252 | an array merged into `{}` gives an object keyed by index strings |
| JqExtend.ArrayIntoArray | dist/js/nb-token.js:242-252 | an array merged into an array overwrites it index by index and keeps its later elements |
| JqExtend.DeepArrayBecomesObject | dist/js/nb-token.js:219-221 | as written a deep-copied array always ends up an object |
| JqExtend.DeepArrayStaysArray | dist/js/nb-token.js:243-245 | with jQuery's target check a deep-copied array stays an array |
| JqExtend.ArrayMergeAsWritten | dist/js/nb-token.js:219-221 | as written `extend(true, {}, {a: [1, 2, 3]}, {a: [9]})` is `{a: {"0": 9}}` |
| JqExtend.ArrayMergeAsJQuery | dist/js/nb-token.js:242-252 | with jQuery's check the same call is `{a: [9, 2, 3]}` |
| NbTokenConfig.AngularExtend | src/js/nb-token.js:32 | the result is an object of the destination's kind |
| NbTokenConfig.ConfigProvider.constructor | src/js/nb-token.js:21-29 | the delimiter `:` and defaults whose site name and slogan are `undefined` |
| NbTokenConfig.ConfigProvider.Set | src/js/nb-token.js:31-33 | the configuration becomes a shallow merge of the old one and the values into `{}` |
| NbTokenConfig.ConfigProvider.Get | src/js/nb-token.js:34-36 | the current configuration |
| NbTokenConfig.DeepConfigProvider.constructor | dist/js/nb-token.js:21-29 | the initial configuration, with the target check the build's `extend` uses |
| NbTokenConfig.DeepConfigProvider.Set | dist/js/nb-token.js:31-33 | the configuration becomes `extend(true, {}, old, values)` with the provider's target check (`AsWritten` for the build as it stands) |
| NbTokenConfig.DeepConfigProvider.Get | dist/js/nb-token.js:34-36 | the current configuration |
| NbTokenConfig.ShallowSet | src/js/nb-token.js:31-33 | after the src `set` each top-level key holds the new value when given, even `undefined`, and the old value otherwise |
| NbTokenConfig.ShallowSetSkipsNonObject | src/js/nb-token.js:32 | values that are not an object give the same configuration as a `set` with no values, which for a plain configuration with distinct keys is the configuration as it was |
| NbTokenConfig.DeepKeeps | dist/js/nb-token.js:242-257 | merging the old configuration and then the values keeps every old value the values do not reach |
| NbTokenConfig.DeepSet | dist/js/nb-token.js:31-33 | after the dist `set`, with either target check, values given win and values not given survive, however deep |
| NbTokenConfig.DeepSetDropsUndefined | dist/js/nb-token.js:255-257 | with either target check the dist `set` drops members holding `undefined`, so the initial `defaults.site` loses `name` and `slogan` |
| NbTokenConfig.DeepSetStoresArrayAsObject | dist/js/nb-token.js:31-33 | as written, the dist `set` stores `{tags: ['a', 'b']}` as `tags: {"0": 'a', "1": 'b'}` |

## Left out

- nb.lodash is not part of this model. `_.get` and `_.set` are assumed to
  split the path on the given delimiter and walk the segments, creating
  containers as lodash 3's set does. The separator used when none is passed
  is taken to be `.` (`LodashPath.LodashDefaultDelimiter`).
- LodashPath.Get: lodash's get and set first try the whole path string as
  one own key of the object, and split it only when no such key exists.
  That lookup is not modelled, in `LodashPath.Set` either. So
  `LodashPath.ClearWithDefaultDelimiter` shows the split-only reading:
  after `clear("site:name")` has written the key `site:name`, lodash's get
  would find that key and answer the default.
- `_.extend` on the flat placeholder map is modelled as `OrderedMap.Merge`.
  `angular.extend` is modelled on AngularJS 1.x: it copies `undefined` too.
  Neither library's code is part of this model.
- `_.cloneDeep` in `reset` is a value copy. Values have no identity here.
- nbI18N is not part of this model. `nbI18N.t('@value', …)` is the
  parameter `format`, so how an `undefined` or an array leaf is rendered
  is left open.
- The `$q` promise of `init` is its boolean answer.
- The `$stateChangeStart` subscription and the provider and dependency
  injection wiring are not modelled. A state change is a call to `Reset`.
- Substitution.ReplaceValue: the caller's object is not rewritten in place.
  The result is a new value, so aliasing between the input and the result
  is not captured.
- Substitution.ReplaceArray and Substitution.ReplaceObject write into a
  local copy of the elements or members, for the same reason.
- JqExtend.Extend: the target is not mutated in place. It returns the
  merged value, so a caller holding the target does not see it change.
- JqExtend.MergeKey: the `target === copy` check (dist/js/nb-token.js:237)
  is not modelled, because values have no identity. It can fire, as in
  `extend(x, {a: x})`. The dist `set` never triggers it, since its target
  is a fresh `{}` that no argument refers to.
- JqExtend.IsPlainObject: the constructor, DOM-node and window tests are
  one tag, `ObjKind`. Functions (`typeof 'function'`), which `extend` also
  accepts as a target, are not values of the model.
- JsValue.ToString: numbers are unbounded integers printed digit by digit.
  Fractions, `NaN`, infinities, the loss of precision above 2^53 and the
  exponent form JavaScript prints for integers from 1e21 up are not
  modelled.
- NbToken.TokenService.Replace: a token map passed in is taken to hold
  strings. `String.prototype.replace` would convert any other value to a
  string, and call a function value to get the replacement.
  Neither is modelled.
- Object keys enumerate in member order. The engine's rule of enumerating
  integer-like keys first is not modelled.
- `angular.forEach` (src/js/nb-token.js:64 and :95) treats an object with a
  numeric `length` as array-like and visits its indices, not its keys. The
  named members of such a token object are then neither flattened nor
  replaced. The model always visits an object's members.
- Arrays have no named properties. A non-index key written to an array is
  ignored, and `for…in` over an array visits its indices only.
- JsValue.Child: every property of a scalar reads as `undefined`. A
  string's characters and its `length` are not readable, so a `get` path
  through a string ends on `undefined`.
- Strings are sequences of characters: UTF-16 code units and surrogate
  pairs are not distinguished. A string used as an `extend` source
  enumerates its characters.

## Findings

| source | as written | input that shows it | evidently intended | confidence | as-written member | corrected member |
|---|---|---|---|---|---|---|
| dist/js/nb-token.js:219-221 | the target check keeps plain objects only, so the `[]` clone made for an array at line 245 is replaced by `{}` and arrays are never merged as arrays | `extend(true, {}, {a: [1, 2, 3]}, {a: [9]})` gives `{a: {"0": 9}}` | jQuery's check, which replaces only a non-object target, so arrays merge index by index: `{a: [9, 2, 3]}` | not executed | JqExtend.ArrayMergeAsWritten | JqExtend.ArrayMergeAsJQuery |

`NbTokenConfig.DeepConfigProvider` takes the target check as a parameter:
`AsWritten` is the build as it stands, `AsJQuery` the corrected one.
