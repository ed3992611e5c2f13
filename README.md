# n11n, modelled in Dafny

n11n is a schema-driven normalizer for in-memory object graphs. A schema names,
for some properties of an object, how to get a reference out of the value held
there: a property name, a key function, or a nested schema. From a schema the
library builds one *descriptor* per declared property. Descriptors drive three
operations:

- `normalize` replaces each declared property by its reference (or array of references);
- `entities` collects the referenced objects into a table `name -> key -> entity`, merging
  repeated occurrences;
- `denormalize` looks references up again in such a table.

The repository holds two generations of this code, and both are modelled here
over one shared value model:

- the **current generation** (`src/core/*`, `src/helpers/define.ts`,
  `acessorFor.ts`, `extractorFor.ts`, `retrieverFor.ts`, `pluralize.ts`, `linear.ts`)
  writes normalized and denormalized values **in place** into the object it is given;
- the **legacy generation** (`src/schema.ts`, `src/entity.ts`, `src/property.ts`,
  `src/process.ts`, `src/normalize.ts`, `src/denormalize.ts`, `src/entities.ts`,
  `src/pluralize.ts`, `src/helpers/define-key.ts`, `acessor.ts`, `extractor.ts`,
  `retriever.ts`, `default-merge.ts`, `src/defaultClone.ts`) writes into a **clone** made by
  a cloner (a shallow copy, or one made by `linear`).

How the model is laid out:

- `values.dfy`: JavaScript values (`Undefined | Null | Bool | Num | Str | Arr | Obj`),
  truthiness, `${v}` coercion, property reads that throw on `null`/`undefined`,
  and strict-mode property writes.
- `outcome.dfy`: a thrown `TypeError` is the `TypeError` case of `Result`.
- `keys.dfy`: raw key declarations keep their tuple shape (`Part`). User functions carry
  their parameter count and an opaque body. Schemas are recursive values, so every
  recursion through nested schemas terminates on schema size.
- Resolvers and builders are pure functions.
- The in-place engine is a class `CoreProcess.Item` whose `fields` its methods overwrite.
- The entity table is a class `Tables.EntityTable` whose `tables` map the collectors'
  loops fill.
- The clone-then-overwrite engine and the `linear` cloner are methods with loops.
  Each is proved against a specification function.
- `Facade` holds the legacy facade of `src/schema.ts` together with everything that
  calls back into it (extractors, retrievers, cloners). Nested schemas make these
  mutually recursive.

## Model

| member | source | states |
|---|---|---|
| Values.Truthy | src/helpers/retriever.ts:30 | a truthy value is never null or undefined, arrays and objects are always truthy, and a string is truthy exactly when it is not empty |
| Values.GetProp | src/helpers/acessor.ts:13-14 | `data[prop]` throws exactly on null and undefined; on a plain object it reads that own property, `undefined` when missing; an array answers its length; booleans and numbers have no properties |
| Values.KeyString | src/helpers/retriever.ts:35 | a string reference is its own key, a number is written in decimal (with a minus sign when negative), and any plain object prints as `[object Object]` |
| Values.KeyStringNumInjective | src/helpers/retriever.ts:35 | distinct numeric references are looked up under distinct keys |
| Values.KeyStringNumStr | src/helpers/retriever.ts:35 | a number and its decimal string are the same key |
| Values.NatString | src/core/entitiesIn.ts:47-48 | `String(n)` of an index is a non-empty string of digits that starts with '0' only for 0 |
| Values.NatStringValue | src/core/entitiesIn.ts:47-48 | the digits `String(n)` writes denote n |
| Values.ParseNatString | src/entities.ts:54-55 | an index written out as a property name reads back as that index |
| Values.NatStringInjective | src/core/entitiesIn.ts:47-48 | distinct numeric references are stored under distinct table keys |
| Values.IndexArr | src/core/entitiesIn.ts:51 | `keys[i]` on an array is its i-th element |
| Values.SetProp | src/core/process.ts:21 | a write succeeds exactly on an object; it adds the property, stores the value there and leaves every other property as it was |
| Values.Indexed | src/defaultClone.ts:7 | spreading an array gives exactly the index names, each mapped to its element |
| Values.Chars | src/defaultClone.ts:7 | spreading a string gives one single-character string per position |
| Values.Spread | src/defaultClone.ts:7 | `{ ...v }` copies an object's own fields, an array's elements under their index names, and nothing for null, undefined, booleans and numbers |
| Values.SpreadReadsBack | src/defaultClone.ts:7 | every property the spread copies reads back as `v[k]` |
| Keys.CountArgs | src/helpers/count-args.ts:2-13 | the counted parameters are at least one, and equal the declared count whenever that is positive |
| Keys.At | src/helpers/define.ts:35 | array destructuring reads the element at i, and `undefined` past the end |
| Keys.AsKey | src/key.types.ts:19-23 | a declaration part is a key exactly when it is a property name, a function or a nested schema, and the key is that part |
| Keys.AsKeyPart | src/key.types.ts:19-23 | every key read back from its own part is itself |
| Keys.Encode | src/key.types.ts:9-17 | a declared shape is written as a tuple exactly when it is an array key, is aliased or has a merger |
| Keys.ApplyMerge | src/core/entitiesIn.ts:65 | calling the merge throws exactly when the declared merger is not a function; the default merge is the spread merge |
| Keys.Props | src/core/process.ts:19-21 | the properties the descriptors write, one per descriptor, in order |
| Merging.DefaultMerge | src/helpers/default-merge.ts:1-6 | the result is an object whose keys are the union of both sides' keys; b's value wins where both have one, and every other key keeps its own side's value |
| Merging.MergeIntoEmpty | src/helpers/default-merge.ts:1-6 | `merge({}, b)` has exactly b's entries |
| Merging.MergeSelf | src/helpers/default-merge.ts:1-6 | `merge(a, a)` has exactly a's entries |
| Cloning.DefaultClone | src/defaultClone.ts:6-8 | the clone is an object with exactly the item's own keys, each holding the identical value; a non-object that is not a string clones to `{}` |
| Define.Define | src/helpers/define.ts:7-37 | isArray holds exactly for the length-1, first-is-array and second-is-array tuples; an alias comes only from the two aliased branches and is the first element; a non-array declaration resolves to itself with nothing else; the key is taken from inside the declaration |
| Define.DefineEncode | src/helpers/define.ts:11-36 | a declared shape resolves to its own key, array flag, alias and merger exactly when it is not one of the clashing shapes: `[name, merger]` with a one-parameter merger, or `[alias, key, merger?]` whose key is not a one-parameter function (so `['geese', 'id']` is key plus merger) |
| Define.DefineTestShapes | src/specs/schema.spec.ts:160-196 | `[d => d.id, (_, b) => b]` is key plus merger, `['producers', d => d.id]` is aliased, and `['films', [m => m.id], merger]` is an aliased array with a merger |
| DefineKey.Resolved | src/helpers/define-key.ts:18-53 | a non-array declaration yields (no alias, itself, false, no merger); only tuples can be array keys; the key is taken from inside the declaration |
| DefineKey.Define | src/helpers/define-key.ts:18-53 | the assignments to `alias`, `key`, `wasArrayKey` (initially true) and `merger` across the branches give exactly the resolved declaration |
| DefineKey.ResolvedEncode | src/helpers/define-key.ts:26-50 | a declared shape resolves to what it means exactly when it is not misread: a merger without an alias whose parameters do not count two, or an aliased single function key whose parameters count two, which is then taken for a merger |
| Text.Trim | src/helpers/pluralize.ts:32 | `trim` never lengthens the word, and what it gives neither starts nor ends with white space |
| Text.TrimStartShape | src/helpers/pluralize.ts:32 | `trimStart` keeps a suffix that starts with a non-space character, and only white space is dropped |
| Text.TrimEndShape | src/helpers/pluralize.ts:32 | `trimEnd` keeps a prefix that ends with a non-space character, and only white space is dropped |
| Text.TrimShape | src/helpers/pluralize.ts:32 | `trim` keeps a slice of the word with no white space at either end and only white space around it |
| Text.Lower | src/helpers/pluralize.ts:32 | lower-casing keeps the length, leaves no capital letter, turns each capital into its small letter and leaves every other character unchanged |
| Text.LowerIdempotent | src/helpers/pluralize.ts:32 | lower-casing twice is lower-casing once |
| Text.EndsWith | src/helpers/pluralize.ts:39 | a word only ends with a suffix no longer than itself |
| Text.EndsWithSlice | src/helpers/pluralize.ts:39 | `endsWith(suffix)` holds exactly when the word's last characters are the suffix |
| Text.DropLast | src/helpers/pluralize.ts:43 | `slice(0, -n)` keeps all but the last n characters, or gives '' when the word is shorter |
| Text.NormalizedLowerWord | src/helpers/pluralize.ts:32 | a lower-case word is its own trimmed, lower-cased form |
| Text.TrimUnspaced | src/helpers/pluralize.ts:32 | a word with no white space at either end is its own trimmed form |
| Pluralizer.FindSuffix | src/helpers/pluralize.ts:39 | the suffix found is one of the alternatives, and the word ends with it |
| Pluralizer.Replace | src/helpers/pluralize.ts:38-46 | `replace` answers exactly when some alternative is found |
| Pluralizer.Concat | src/helpers/pluralize.ts:34 | `concat` answers exactly when some alternative is found, with the word plus the value |
| Pluralizer.Keep | src/helpers/pluralize.ts:36 | `keep` answers exactly when some alternative is found, with the word itself |
| Pluralizer.ConcatIfIn | src/helpers/pluralize.ts:48-49 | `ifIsIn(words).concat` answers exactly for a listed word, with the word plus the value |
| Pluralizer.Or | src/helpers/pluralize.ts:14-27 | `a \|\| b`: a non-empty answer is kept and a missing one falls through to b |
| Pluralizer.Chain | src/helpers/pluralize.ts:14-27 | with a non-empty fallback the chain never gives '' |
| Pluralizer.Pluralize | src/helpers/pluralize.ts:10 | '' for a non-string or empty argument, and a non-empty plural for every other string (which plural, word by word: Pluralizer.PluralizeByEnding) |
| Pluralizer.ChainFirst | src/helpers/pluralize.ts:14-27 | the first rule that gives a non-empty answer decides the plural |
| Pluralizer.ChainNone | src/helpers/pluralize.ts:14-27 | when no rule answers, the fallback is the plural |
| Pluralizer.ChainIgnoresFallback | src/helpers/pluralize.ts:14-27 | once a rule answers, the fallback is never consulted |
| Pluralizer.NotEndingIn | src/helpers/pluralize.ts:39 | no alternative whose last character differs from the word's is found |
| Pluralizer.ExceptionsEndInO | src/helpers/pluralize.ts:54-62 | every listed exception ends in 'o' |
| Pluralizer.Misses | src/helpers/pluralize.ts:15-26 | a rule never answers a word whose last character none of its suffixes ends with |
| Pluralizer.EmptyFindsNothing | src/helpers/pluralize.ts:39 | no non-empty suffix is found in '' |
| Pluralizer.MissesBefore | src/helpers/pluralize.ts:15-26 | every rule before the k-th misses a word whose last character none of them looks at |
| Pluralizer.PluralEx | src/helpers/pluralize.ts:15 | ex -> ices: exactly the matched 'ex' is replaced |
| Pluralizer.PluralUs | src/helpers/pluralize.ts:16 | us -> i |
| Pluralizer.PluralOof | src/helpers/pluralize.ts:17 | oof -> oofs, ahead of the f rule |
| Pluralizer.PluralF | src/helpers/pluralize.ts:18 | f (not oof) -> ves |
| Pluralizer.PluralFe | src/helpers/pluralize.ts:19 | fe -> ves |
| Pluralizer.PluralIs | src/helpers/pluralize.ts:20 | is -> es |
| Pluralizer.IsNotUs | src/helpers/pluralize.ts:16-20 | a word ending in 'is' does not end in 'us', so the is rule is reached |
| Pluralizer.PluralUm | src/helpers/pluralize.ts:21 | um -> a |
| Pluralizer.PluralException | src/helpers/pluralize.ts:22 | echo, embargo, hero, potato, tomato, veto and volcano take 'es' |
| Pluralizer.PluralVowelY | src/helpers/pluralize.ts:23 | a vowel before the final 'y' takes 's' |
| Pluralizer.VowelYFound | src/helpers/pluralize.ts:23 | a word ending in a vowel and 'y' matches one of ay, ey, iy, oy, uy |
| Pluralizer.FoundSuffix | src/helpers/pluralize.ts:39 | an alternative the word ends with is found |
| Pluralizer.PluralConsonantY | src/helpers/pluralize.ts:24 | any other final 'y' becomes 'ies' |
| Pluralizer.NoVowelY | src/helpers/pluralize.ts:23 | a word without a vowel before its final 'y' matches none of ay, ey, iy, oy, uy |
| Pluralizer.EndingInNone | src/helpers/pluralize.ts:39-41 | nothing is found when the word ends with no alternative |
| Pluralizer.PluralCraft | src/helpers/pluralize.ts:25 | a word ending in 'craft' is its own plural |
| Pluralizer.PluralSibilant | src/helpers/pluralize.ts:26 | ch, sh, s, x and z take 'es' once ex, us and is have had their turn |
| Pluralizer.PluralOtherO | src/helpers/pluralize.ts:22-27 | a word ending in 'o' that is not listed falls through to the fallback |
| Pluralizer.PluralPlain | src/helpers/pluralize.ts:15-27 | exactly the words no rule answers fall through to the fallback: a word ending in e but not fe, h but not ch or sh, m but not um, o but not listed, t but not craft, or in any letter other than f, s, x, y and z |
| Pluralizer.ChainByEnding | src/helpers/pluralize.ts:14-28 | for every word and fallback the chain gives the suffix-by-suffix plural `ByEnding`, so the rule lemmas above, taken together, decide every word |
| Pluralizer.PluralizeByEnding | src/helpers/pluralize.ts:9-29 | every non-empty string gets the plural of its trimmed, lower-cased form: ex -> ices, us -> i, oof -> oofs, f -> ves, fe -> ves, is -> es, um -> a, the listed o-words + es, vowel + y -> + s, y -> ies, craft kept, ch, sh, s, x, z -> + es, and otherwise the argument as given plus 's' |
| Pluralizer.PluralizeNormalizes | src/helpers/pluralize.ts:31-32 | two arguments with the same trimmed, lower-cased form get the same plural when a rule answers |
| Pluralizer.PluralizeFallback | src/helpers/pluralize.ts:27 | when no rule answers, the plural is the argument as given (not trimmed or lowered) plus 's' |
| Pluralizer.PluralOfCapitalized | src/helpers/pluralize.ts:27 | 'Director' becomes 'Directors' and keeps its capital |
| Pluralizer.PluralOfPadded | src/helpers/pluralize.ts:32 | '  Hero' is trimmed and lowered before the exceptions are consulted, giving 'heroes' |
| Pluralizer.PaddedHero | src/helpers/pluralize.ts:32 | the normalized form of '  Hero' is 'hero' |
| Pluralizer.TrimPadded | src/helpers/pluralize.ts:32 | trimming '  Hero' gives 'Hero' |
| Pluralizer.StartsUnspaced | src/helpers/pluralize.ts:32 | `trimStart` keeps a word that starts with a non-space character |
| Pluralizer.SpaceFirst | src/helpers/pluralize.ts:32 | `trimStart` drops a leading white-space character |
| Pluralizer.LowerHero | src/helpers/pluralize.ts:32 | 'Hero' lowers to 'hero' |
| Pluralizer.PluralizeLowerWord | src/helpers/pluralize.ts:31-32 | a lower-case word goes through the rules as given, with the word plus 's' as fallback |
| Pluralizer.SibilantWord | src/helpers/pluralize.ts:26 | a word ending in ch, sh, s, x or z, with none of e, u, i before it, takes 'es' |
| Pluralizer.PluralOfDirector | src/specs/schema.spec.ts:127-134 | 'director' -> 'directors' |
| Pluralizer.PluralOfIndex | src/specs/pluralize.spec.ts:10 | 'index' -> 'indices' |
| Pluralizer.PluralOfCactus | src/specs/pluralize.spec.ts:14 | 'cactus' -> 'cacti' |
| Pluralizer.PluralOfWolf | src/specs/pluralize.spec.ts:18 | 'wolf' -> 'wolves' |
| Pluralizer.PluralOfRoof | src/specs/pluralize.spec.ts:19 | 'roof' -> 'roofs' |
| Pluralizer.PluralOfKnife | src/specs/pluralize.spec.ts:23 | 'knife' -> 'knives' |
| Pluralizer.PluralOfDatum | src/specs/pluralize.spec.ts:31 | 'datum' -> 'data' |
| Pluralizer.PluralOfPotato | src/specs/pluralize.spec.ts:35 | 'potato' -> 'potatoes' |
| Pluralizer.PluralOfMovie | src/helpers/pluralize.ts:27 | 'movie' (e, not fe) -> 'movies' |
| Pluralizer.PluralOfMoth | src/helpers/pluralize.ts:27 | 'moth' (h, not ch or sh) -> 'moths' |
| Pluralizer.PluralOfFilm | src/helpers/pluralize.ts:27 | 'film' (m, not um) -> 'films' |
| Pluralizer.PluralOfVideo | src/specs/pluralize.spec.ts:36 | 'video' -> 'videos' |
| Pluralizer.PluralOfCountry | src/specs/pluralize.spec.ts:40 | 'country' -> 'countries' |
| Pluralizer.PluralOfSubway | src/specs/pluralize.spec.ts:41 | 'subway' -> 'subways' |
| Pluralizer.PluralOfAircraft | src/specs/pluralize.spec.ts:45 | 'aircraft' -> 'aircraft' |
| Pluralizer.PluralOfBench | src/specs/pluralize.spec.ts:49 | 'bench' -> 'benches' |
| Pluralizer.PluralOfMarsh | src/specs/pluralize.spec.ts:50 | 'marsh' -> 'marshes' |
| Pluralizer.PluralOfKiss | src/specs/pluralize.spec.ts:51 | 'kiss' -> 'kisses' |
| Pluralizer.PluralOfCosmos | src/specs/pluralize.spec.ts:52 | 'cosmos' -> 'cosmoses' |
| Pluralizer.PluralOfTax | src/specs/pluralize.spec.ts:53 | 'tax' -> 'taxes' |
| Pluralizer.PluralOfTopaz | src/specs/pluralize.spec.ts:54 | 'topaz' -> 'topazes' |
| Pluralizer.PluralizeTestWord | src/specs/pluralize.spec.ts:9-55 | each test word is lower-case and the rules give its expected plural |
| Pluralizer.PluralizeWorkedCases | src/specs/pluralize.spec.ts:4-55 | `pluralize(null)` and `pluralize('')` are '', and every test word gets its expected plural through `pluralize` itself |
| LegacyPluralizer.Replace | src/pluralize.ts:39 | the result ends with the replacement; read as intended it is the word without the matched suffix plus the replacement, and as written it is the word without as many characters as the replacement has, plus the replacement |
| LegacyPluralizer.Chain | src/pluralize.ts:9-25 | with a non-empty fallback the chain never gives '' |
| LegacyPluralizer.PluralizeWith | src/pluralize.ts:2-4 | '' for a non-string or empty argument, and a non-empty plural for every other string, whichever way `replace` is read |
| LegacyPluralizer.Pluralize | src/pluralize.ts:2-4 | as written: '' exactly for a non-string or empty argument, and non-empty otherwise (which plural, word by word: LegacyPluralizer.PluralizeByEnding) |
| LegacyPluralizer.IntendedPluralize | src/pluralize.ts:2-4 | corrected `replace`: '' exactly for a non-string or empty argument, and non-empty otherwise (which plural, word by word: LegacyPluralizer.PluralizeByEnding) |
| LegacyPluralizer.ChainFirst | src/pluralize.ts:9-25 | the first step that gives a non-empty answer decides the plural |
| LegacyPluralizer.ChainNone | src/pluralize.ts:9-25 | when no step answers, the fallback is the plural |
| LegacyPluralizer.ExceptionsEndInO | src/pluralize.ts:7 | every listed exception ends in 'o' |
| LegacyPluralizer.Misses | src/pluralize.ts:10-23 | a step never answers a word whose last character none of its suffixes ends with |
| LegacyPluralizer.MissesSuffix | src/pluralize.ts:35 | a word does not end with a suffix whose last character differs from its own |
| LegacyPluralizer.MissesEither | src/pluralize.ts:49-52 | `ifEndsWithEither` finds nothing when no alternative ends in the word's last character |
| LegacyPluralizer.MissesBefore | src/pluralize.ts:10-23 | every step before the k-th misses a word whose last character none of them looks at |
| LegacyPluralizer.LegacyEx | src/pluralize.ts:10 | ex -> ices, through `replace` |
| LegacyPluralizer.LegacyUs | src/pluralize.ts:11 | us -> i, through `replace` |
| LegacyPluralizer.LegacyF | src/pluralize.ts:13 | f (not oof) -> ves, through `replace` |
| LegacyPluralizer.LegacyFe | src/pluralize.ts:14 | fe -> ves, through `replace` |
| LegacyPluralizer.LegacyIs | src/pluralize.ts:15 | is -> es, through `replace` |
| LegacyPluralizer.LegacyUm | src/pluralize.ts:16 | um -> a, through `replace` |
| LegacyPluralizer.LegacyException | src/pluralize.ts:17 | the six listed words take 'es' |
| LegacyPluralizer.LegacyOtherO | src/pluralize.ts:18 | every other word ending in 'o' takes 's' |
| LegacyPluralizer.LegacyY | src/pluralize.ts:19-21 | a final 'y' takes 's' exactly when the argument as given (untrimmed, not lowered) ends in a vowel and 'y', and 'ies' through `replace` otherwise |
| LegacyPluralizer.LegacyKeep | src/pluralize.ts:22 | words ending in 'craft', or in 's' but not 'us' or 'is', are kept as they are |
| LegacyPluralizer.LegacySibilant | src/pluralize.ts:23 | ch, sh, x (but not ex) and z take 'es' |
| LegacyPluralizer.LegacyOof | src/pluralize.ts:12 | oof -> oofs, ahead of the f step, whichever way `replace` is read |
| LegacyPluralizer.LegacyPlain | src/pluralize.ts:10-24 | exactly the words no step answers fall back to `concat('s')`: a word ending in e but not fe, h but not ch or sh, m but not um, t but not craft, or in any letter other than f, o, s, x, y and z |
| LegacyPluralizer.ChainByEnding | src/pluralize.ts:9-25 | for every word, raw argument, reading of `replace` and fallback the chain gives the suffix-by-suffix plural `ByEnding`, so the step lemmas above, taken together, decide every word |
| LegacyPluralizer.PluralizeByEnding | src/pluralize.ts:1-26 | every non-empty string gets, as written and as intended, the plural of its trimmed, lower-cased form: ex -> ices, us -> i, f -> ves, fe -> ves, is -> es and um -> a, all through `replace`; oof -> oofs; the six listed words + es; any other o + s; y + s after a vowel in the raw argument, and y -> ies through `replace` otherwise; craft and s kept; ch, sh, x, z -> + es, and otherwise the trimmed, lower-cased word plus 's' |
| LegacyPluralizer.LegacyLowerWord | src/pluralize.ts:28-29 | a lower-case word goes through the steps as itself, both as the normalized word and as the raw argument, with the word plus 's' as fallback |
| LegacyPluralizer.LegacyFallback | src/pluralize.ts:24 | when no step answers, the plural is the trimmed, lower-cased word plus 's' |
| LegacyPluralizer.ReplaceCutsReplacementLength | src/pluralize.ts:39 | as written, a word ending in 'ex' keeps its length under the ex rule, where the intended reading makes it two longer; the two differ |
| LegacyPluralizer.IndexSteps | src/pluralize.ts:39 | 'index' becomes 'iices' as written and 'indices' as intended |
| LegacyPluralizer.LegacyLift | src/pluralize.ts:28-29 | an answer of the steps on a lower-case word is the answer of `pluralize` |
| LegacyPluralizer.IntendedAgreesOnReplace | src/pluralize.ts:10-16 | with `replace` read as intended, every replace step gives what the current pluralizer gives |
| LegacyPluralizer.VolcanoSteps | src/pluralize.ts:7 | 'volcano' is 'volcanoes' for the current pluralizer and 'volcanos' for the legacy one |
| LegacyPluralizer.KissSteps | src/pluralize.ts:22 | 'kiss' is 'kisses' for the current pluralizer and stays 'kiss' in the legacy one |
| LegacyPluralizer.RoofSteps | src/pluralize.ts:12 | 'roof' -> 'roofs' under either reading of `replace` |
| LegacyPluralizer.PostSteps | src/pluralize.ts:24 | 'post' (t, not craft) -> 'posts' under either reading of `replace` |
| LegacyPluralizer.CompanySteps | src/pluralize.ts:39 | 'company' becomes 'compies' as written, and 'companies' as intended and for the current pluralizer |
| CoreEntitiesFor.EntityName | src/core/entitiesFor.ts:12 | the table is the alias when it is truthy, else the property for array keys, else the property's plural; for a non-empty property it is '' only when a truthy alias prints as '' |
| CoreEntitiesFor.EntityFor | src/core/entitiesFor.ts:10-20 | building a descriptor throws exactly when the resolved key is `undefined`; otherwise it keeps the property and a key taken from the declaration |
| CoreEntitiesFor.EntitiesFor | src/core/entitiesFor.ts:9-22 | one descriptor per entry, in entry order, and a throw when any entry throws |
| CoreEntitiesFor.EntitiesForDistinct | src/core/entitiesFor.ts:10 | descriptors of distinct entries name distinct properties |
| CoreEntitiesFor.EntityForShape | src/core/entitiesFor.ts:11-19 | a declaration read as written gets the descriptor its shape means: named by alias, property or plural, merged by its merger or `defaultMerge`, with its key and array flag |
| CoreEntitiesFor.DirectorTable | src/specs/schema.spec.ts:127-134 | `director: d => d.id` fills the table 'directors' |
| CoreEntitiesFor.SingleKeyName | src/core/entitiesFor.ts:12 | a single key function's table is the plural of its property |
| CoreEntitiesFor.TestNames | src/specs/schema.spec.ts:160-170 | `['producers', d => d.id]` fills 'producers', replacing the computed 'directors', and `movies: [m => m.id]` fills 'movies' |
| CoreEntitiesFor.DirectorPlural | src/specs/schema.spec.ts:127-134 | 'director' pluralizes to 'directors' |
| LegacyEntity.EntityFor | src/entity.ts:18-28 | building a descriptor throws exactly when the resolved key is `undefined`; otherwise it keeps the property and a key taken from the declaration |
| LegacyEntity.EntitiesFor | src/entity.ts:17-30 | one descriptor per entry, in entry order, and a throw when any entry throws |
| LegacyEntity.KeysBelowSchema | src/entity.ts:19 | every key of a schema's descriptors is smaller than the schema, so recursion into nested schemas ends |
| LegacyEntity.LegacyEntitiesDistinct | src/entity.ts:18 | descriptors of distinct entries name distinct properties |
| LegacyEntity.LegacyEntityForShape | src/entity.ts:19-27 | a declaration the legacy resolver reads as written gets the descriptor its shape means |
| LegacyEntity.GeeseDiverges | src/schema.ts:46-48 | `goose: ['geese', 'id']` fills 'geese' in the legacy generation, while the current one reads 'geese' as the key and 'id' as a merger whose call throws |
| LegacyProperty.Describe | src/property.ts:11-17 | an array declaration keys by its first element and uses the property as table; a single key uses the property's plural by the legacy pluralizer of src/pluralize.ts as written; building throws exactly when the key is `undefined` |
| LegacyProperty.EntitiesFor | src/property.ts:11-17 | one record per entry, in entry order |
| LegacyProperty.Extract | src/property.ts:33-46 | extracting from null or undefined throws; in array mode a missing or falsy property gives `[]`, an array gives as many keys as it has elements, and the result is an array; a property that is not an object passes through |
| LegacyProperty.Retrieve | src/property.ts:58-81 | retrieving from null or undefined throws; in array mode a missing or falsy property gives `[]` and an array gives as many values as it has references; a single string or function key never throws on an object |
| LegacyProperty.BehavesAsEntity | src/property.ts:23-85 | a record extracts and retrieves exactly as the legacy descriptor with the same property, table, key and array flag |
| LegacyProperty.OneElementAgrees | src/property.ts:33-35 | for `[k]` the oldest builder and `entity.ts` build the same descriptor |
| LegacyProperty.SingleKeyTables | src/property.ts:62-64 | for a single key the two builders differ only in which pluralizer names the table: the legacy one as written for the retriever, the current one for the entity |
| LegacyProperty.CompanyTable | src/property.ts:64 | a `company` property retrieves from table 'compies', while the entity builder of src/entity.ts stores into 'companies' |
| Accessor.MapResult | src/helpers/acessorFor.ts:13 | `xs.map(fn)` succeeds exactly when every call does, with the same length and the i-th result at position i |
| Accessor.Access | src/helpers/acessorFor.ts:7-15 | throws on a nullish item; single mode is one call on `data[prop]`; array mode gives `[]` for a falsy property, throws for a truthy non-array, and otherwise maps fn over the elements in order |
| Accessor.AccessReadsOnlyProp | src/helpers/acessorFor.ts:12-14 | two items that agree on prop are accessed alike: nothing but `data[prop]` is read |
| Accessor.MapBack | src/helpers/acessor.ts:12-13 | mapping by f and then by a g that undoes f gives the elements back |
| ExtractorFor.ExtractOne | src/helpers/extractorFor.ts:18-28 | a value that is not an object passes through unchanged, whatever the key |
| ExtractorFor.Extract | src/helpers/extractorFor.ts:10-16 | extracting from null or undefined throws; in array mode a missing or falsy property gives `[]`, an array gives as many keys as it has elements, and the result is an array; a property that is not an object passes through |
| ExtractorFor.ExtractAgrees | src/helpers/extractorFor.ts:18-24 | on every key a descriptor can hold, the current extractor agrees with the legacy one, though they test key kinds in another order |
| ExtractorFor.ExtractAgreesOnEntity | src/helpers/extractorFor.ts:10-16 | a descriptor extracts alike in both generations, in single and array mode |
| ExtractorFor.ExtractReference | src/helpers/extractorFor.ts:26-28 | extracting from a property that already holds references gives them back |
| ExtractorFor.LegacyExtractReference | src/helpers/extractor.ts:30-32 | the legacy extractor gives references back unchanged too |
| ExtractorFor.MovieIds | src/specs/schema.spec.ts:44-63 | `movies: ['id']` and `movies: [m => m.id]` both turn two movies into `[1, 2]` |
| RetrieverFor.Lookup | src/helpers/retrieverFor.ts:33-34 | the lookup throws exactly on a nullish table; otherwise it gives the entry, or the reference when the entry is nullish |
| RetrieverFor.RetrieveOne | src/helpers/retrieverFor.ts:30-35 | a nested schema denormalizes and an `undefined` key throws; any other key throws exactly on a nullish table, and on a table gives the stored entry, or the reference when that entry is null or undefined |
| RetrieverFor.Retrieve | src/helpers/retrieverFor.ts:13-28 | retrieving from null or undefined throws; in array mode a missing or falsy property gives `[]`, an array gives as many values as it has references, and the result is an array; with a single string or function key on an object, only a nullish table throws |
| RetrieverFor.LookupDiverges | src/helpers/retrieverFor.ts:34 | the two generations' lookups differ exactly on an entry that is present but falsy (and not the reference itself) |
| RetrieverFor.ZeroEntry | src/helpers/retriever.ts:35 | an entry `0` is returned by the current lookup and replaced by the reference in the legacy one |
| RetrieverFor.RetrieveMissing | src/specs/schema.spec.ts:97-103 | against a table without the entity, the property comes back as the references it held |
| RetrieverFor.NullTable | src/helpers/retriever.ts:29-31 | with a null table the current lookup throws and the legacy one gives the reference back |
| Overwriting.OverwriteFields | src/core/process.ts:19-22 | the written object has its own properties and every written one |
| Overwriting.OverwriteUntouched | src/core/process.ts:19-22 | a property no descriptor names keeps its value |
| Overwriting.OverwriteLast | src/core/process.ts:19-22 | when two descriptors name the same property, the later write wins |
| Overwriting.OverwriteDistinct | src/core/process.ts:19-22 | with distinct properties every descriptor's value is the one that stays |
| Overwriting.OverwriteTwice | src/process.ts:23-25 | writing the same values a second time changes nothing |
| Overwriting.OverwriteShape | src/process.ts:23-25 | with distinct properties each written property holds its value and every other keeps its own |
| Overwriting.OverwriteRestores | src/process.ts:23-25 | writing back each property's value from m, over an object with m's keys that agrees with m elsewhere, gives m |
| Overwriting.OverwriteSame | src/process.ts:23-25 | writing back values the properties already hold changes nothing |
| Overwriting.LastOf | src/core/process.ts:19-22 | every written property has a last write |
| Overwriting.Overwrite | src/process.ts:23-25 | writes to a clone succeed exactly when the clone is an object (or nothing is written), and give the written fields |
| Overwriting.AllOk | src/process.ts:23-25 | a list of computed values succeeds exactly when each does, and keeps them in order |
| Overwriting.InterleavedIsOverwrite | src/process.ts:23-25 | writing each value as soon as it is computed gives what computing them all first and writing them afterwards gives |
| CoreProcess.Item.constructor | src/core/process.ts:11-15 | an item holds the given properties |
| CoreProcess.Processed | src/core/process.ts:19-22 | the object keeps every property it had, and a run that does not throw holds every declared property |
| CoreProcess.Process | src/core/process.ts:11-25 | the item's properties become those of the run over the descriptors from the old properties; the result is the very item, and a throw exactly when the run throws |
| CoreProcess.Normalize | src/core/normalize.ts:4-6 | process with `extract(item)`, in place on the item, which is returned |
| CoreProcess.Denormalize | src/core/denormalize.ts:5-13 | process with `retrieve(item, entities)`, in place on the item, which is returned |
| CoreProcess.RunUntouched | src/core/process.ts:19-22 | a property no descriptor names is left as it was, present or absent |
| CoreProcess.RunKeys | src/core/process.ts:19-22 | a run that gets through writes every declared property and no other |
| CoreProcess.RunSplit | src/core/process.ts:19 | a run is its first j descriptors, then the rest on what they left |
| CoreProcess.RunLast | src/core/process.ts:19-22 | the last descriptor to name a property decides it, with its processor applied to what the earlier writes left |
| CoreProcess.PrefixThrows | src/core/process.ts:19 | a throw in the first j descriptors ends the whole run with a throw |
| CoreProcess.Calls | src/core/process.ts:19 | the processor is called once per descriptor, in order |
| CoreProcess.ApplyReadsOnlyProp | src/helpers/acessorFor.ts:12-14 | extract and retrieve read only their descriptor's property |
| CoreProcess.RunDistinct | src/core/normalize.ts:5 | with distinct properties, earlier writes never change what a later descriptor reads: the run throws exactly when some call on the original item throws, and otherwise writes all those calls' values |
| CoreProcess.RunReadsOriginal | src/core/normalize.ts:5 | with distinct properties each declared property ends up holding its processor's value on the original item |
| CoreProcess.NormalizeReferences | src/specs/schema.spec.ts:65-72 | normalizing an item whose declared properties already hold references leaves it unchanged |
| CoreProcess.DenormalizeMissing | src/specs/schema.spec.ts:97-103 | against a table holding none of the entities, denormalizing leaves every reference as it is |
| CoreProcess.NullArray | src/specs/schema.spec.ts:105-114 | a null or undefined array property comes back as `[]`, in either direction |
| Facade.ExtractOne | src/helpers/extractor.ts:19-32 | non-objects pass through; string and function keys never throw, and on a plain object a string key reads that property, `undefined` when missing; only an object with some other key can throw: a nested schema when its `normalize` does, an array key or no key always (ExtractorFor.ExtractAgrees: the current extractor agrees on every key a descriptor can hold) |
| Facade.Extract | src/helpers/extractor.ts:11-17 | extracting from null or undefined throws; in array mode a missing or falsy property gives `[]`, an array gives as many keys as it has elements, and the result is an array; a property that is not an object passes through (ExtractorFor.LegacyExtractReference: references come back unchanged) |
| Facade.ExtractAll | src/normalize.ts:10 | every descriptor's extract of the same item, in order, succeeding exactly when each does |
| Facade.TableAt | src/helpers/retriever.ts:29-31 | `at` is never falsy, and a falsy table reads as `{}` |
| Facade.Lookup | src/helpers/retriever.ts:29-35 | the result is the reference or a truthy entity; a falsy table, or one without the name, gives the reference; on a table of objects it is the entry stored under `${ref}` when that entry is truthy, else the reference (CollectedLaws.LookupEntry, RetrieverFor.LookupDiverges) |
| Facade.RetrieveOne | src/helpers/retriever.ts:33-39 | string and function keys never throw and give the reference or a truthy entity; only a nested schema, an array key or no key can throw (SchemaLaws.PropertyRoundTrip: a retrieve undoes an extract) |
| Facade.Retrieve | src/helpers/retriever.ts:12-27 | retrieving from null or undefined throws; in array mode a missing or falsy property gives `[]`, an array gives as many values as it has references, and the result is an array; a single string or function key never throws on an object |
| Facade.RetrieveAll | src/denormalize.ts:15 | every descriptor's retrieve of the same item, in order, succeeding exactly when each does |
| Facade.Clone | src/schema.ts:98 | only a linear cloner can throw; the default cloner gives a plain object with exactly an object's keys and values; a linear clone keeps every key the shallow copy has and holds every linked property |
| Facade.LinearFold | src/helpers/linear.ts:24-26 | the loop keeps every property of the clone and sets every linked one |
| Facade.Normalize | src/schema.ts:111-115 | an array normalizes element by element: it succeeds exactly when every element does, and gives an array of the same length holding each element's normalized item |
| Facade.NormalizeItem | src/normalize.ts:5-11 | a declaration without a key throws; with no declarations the item is only cloned; under the default cloner it throws exactly when a declaration or an extract does; what it returns holds every declared property and, under the default cloner, every property of the item |
| Facade.Denormalize | src/schema.ts:103-107 | an array denormalizes element by element: it succeeds exactly when every element does, and gives an array of the same length holding each element's denormalized item |
| Facade.DenormalizeItem | src/denormalize.ts:6-18 | a declaration without a key throws; with no declarations the item is only cloned; under the default cloner it throws exactly when a declaration or a retrieve does; what it returns holds every declared property and, under the default cloner, every property of the item |
| Linear.LinearClone | src/helpers/linear.ts:20-30 | the loop over a shallow clone gives exactly the `linear` cloner's result |
| Linear.NormalizeLink | src/helpers/linear.ts:25 | one turn of the loop writes the schema's normalize of the clone's property, or throws with the rest of the loop |
| Linear.FoldStep | src/helpers/linear.ts:24-26 | the loop is its first turn, then the rest on what that turn left |
| Linear.LinearKeeps | src/helpers/linear.ts:22-26 | a property no link names keeps the clone's value, present or absent |
| Linear.LinearNormalizes | src/helpers/linear.ts:24-26 | each linked property holds its schema's normalize of the clone's value |
| LegacyProcess.Calls | src/process.ts:23 | the processor is called once per descriptor, in order, on the original item |
| LegacyProcess.Processed | src/process.ts:12-28 | the process throws exactly when the cloner or a processor throws, or when there is a property to write and the clone is not a plain object; what it returns holds every declared property |
| LegacyProcess.Process | src/process.ts:12-28 | the loop gives the cloner's copy with each declared property overwritten by the processor's value, or a throw |
| LegacyProcess.Normalize | src/normalize.ts:5-11 | process with `extract(item)` on the original item |
| LegacyProcess.Denormalize | src/denormalize.ts:6-18 | process with `retrieve(item, entities)` on the original item |
| LegacyProcess.NormalizeIsProcess | src/schema.ts:111-115 | the facade's normalize of one item is this process with the schema's descriptors and cloner |
| LegacyProcess.DenormalizeIsProcess | src/schema.ts:103-107 | the facade's denormalize of one item is this process with the schema's descriptors and cloner |
| SchemaLaws.NormalizeDispatch | src/schema.ts:111-115 | an array normalizes element by element into an array of the same length; a single item gives a single result |
| SchemaLaws.DenormalizeDispatch | src/schema.ts:103-107 | an array denormalizes element by element against the same table; a single item gives a single result |
| SchemaLaws.NormalizeOverwrites | src/normalize.ts:10 | normalizing an object writes the extracts of the original object over its shallow copy |
| SchemaLaws.NormalizeReplaces | src/schema.ts:51-60 | normalizing succeeds exactly when every extract does; it keeps the object's keys and adds the declared ones, each declared property holds its extract, and every undeclared one is unchanged |
| SchemaLaws.PropsSet | src/schema.ts:57 | the declared properties as a set |
| SchemaLaws.NormalizeFixed | src/specs/schema.spec.ts:65-72 | an object whose declared properties hold references normalizes to an equal object |
| SchemaLaws.NormalizeTwice | src/specs/schema.spec.ts:65-72 | normalizing a normalized object gives it back |
| SchemaLaws.PropertyRoundTrip | src/denormalize.ts:15 | retrieving a property from where its extract was written gives the original value when the table gives it back |
| SchemaLaws.DenormalizeOverwrites | src/denormalize.ts:12-17 | denormalizing an object writes the retrieves of the original object over its shallow copy |
| SchemaLaws.ExtractsOk | src/normalize.ts:10 | every extract succeeds on an object the table can give back |
| SchemaLaws.RetrievesBack | src/denormalize.ts:15 | on the normalized object every retrieve gives the original property's value |
| SchemaLaws.RoundTrip | src/specs/schema.spec.ts:76-84 | `denormalize(normalize(x), table)` is x when the table gives back every declared value |
| SchemaLaws.RoundTripData | src/specs/schema.spec.ts:76-95 | the round trip holds on one object and on an array of them |
| Tables.Base | src/core/entitiesIn.ts:63 | `entities[name][key] \|\| {}` is never falsy |
| Tables.Store | src/core/entitiesIn.ts:56-66 | a store throws exactly when the name's table is missing or the merger is not a function; otherwise it adds the key to that table, keeps the top-level names, and leaves the merge of the old entry (or `{}`) with the new value there |
| Tables.StoreFrame | src/core/entitiesIn.ts:63-65 | a store changes that one entry and nothing else |
| Tables.Then | src/core/entitiesIn.ts:38 | two lists of writes succeed exactly when both come about |
| Tables.RunAppend | src/core/entitiesIn.ts:28 | running two lists of writes is running the first, then the second on what it left |
| Tables.AfterThen | src/core/entitiesIn.ts:38 | the same, for lists that may themselves have failed to come about |
| Tables.AfterOk | src/core/entitiesIn.ts:38 | a scan whose first part succeeds goes on from the table that part leaves |
| Tables.AfterFails | src/core/entitiesIn.ts:38 | a scan whose first part throws throws |
| Tables.Puts | src/core/entitiesIn.ts:50-51 | the stores of an array throw exactly when there is an element and the keys are null or undefined; otherwise there is one store per element, under the descriptor's name and merge, element j under `${keys[j]}` |
| Tables.Stores | src/core/entitiesIn.ts:47-52 | a truthy value's stores throw only when it is a non-empty array and the keys are null or undefined; an array gives one store per element and anything else one store under `${keys}`, all under the descriptor's name |
| Tables.Occurrence | src/core/entitiesIn.ts:39-52 | a falsy property writes nothing; a truthy one creates the name's table and then does its stores, and throws exactly when extracting the keys or a store does |
| Tables.OccurrenceSteps | src/core/entitiesIn.ts:39-52 | a falsy property writes nothing; a truthy one first creates the name's table, then extracts the keys and stores |
| Tables.RunNames | src/core/entitiesIn.ts:43 | the top-level names are those already there and those created |
| Tables.OccurrenceNamed | src/core/entitiesIn.ts:43-48 | a descriptor writes under its own name only |
| Tables.ThenNamed | src/core/entitiesIn.ts:38 | writes under the given names, followed by more such writes, stay under them |
| Tables.RunNamed | src/core/entitiesIn.ts:17 | a scan whose writes are under the given names adds no other name |
| Tables.Matching | src/core/entitiesIn.ts:65 | the stores to one entry, in order, picked out of the scan |
| Tables.RunEntry | src/core/entitiesIn.ts:56-66 | every entry ends up as the left fold of merges over its stores, in order, starting from what it held |
| Tables.FoldKeepsLast | src/specs/schema.spec.ts:172-185 | with the merger `(_, b) => b` an entry is its last occurrence itself |
| Tables.FoldDefault | src/helpers/default-merge.ts:1-6 | under the default merge an entry is an object holding every field any of its occurrences had, the later ones winning |
| Tables.LayeredLast | src/helpers/default-merge.ts:3-4 | the last occurrence's own fields win |
| Tables.StoredOnce | src/specs/schema.spec.ts:118-125 | an object stored once under the default merge is stored with exactly its entries |
| Tables.EntityTable.constructor | src/core/entitiesIn.ts:17 | the table starts empty |
| Tables.EntityTable.Touch | src/core/entitiesIn.ts:43 | the name's table is created when missing, and nothing else changes |
| Tables.EntityTable.SetEntity | src/core/entitiesIn.ts:56-66 | the new table is the store's result, or the call reports the throw |
| Tables.EntityTable.SetAll | src/core/entitiesIn.ts:50-52 | an array stores each element under its key, a single value under the single key; the new table is the result of those stores, and the call fails exactly when one of them throws |
| Tables.EntityTable.SetEach | src/core/entitiesIn.ts:51 | the loop over the elements leaves the result of storing each element under its key, in order, or reports the first throw |
| Tables.EntityTable.StoreAt | src/core/entitiesIn.ts:51 | one turn of that loop: read `keys[i]`, store element i, and leave the rest of the loop to do |
| Tables.RunOne | src/core/entitiesIn.ts:43 | running one write is doing it |
| Tables.PutsDone | src/core/entitiesIn.ts:51 | no element left means no write |
| Tables.PutsStep | src/core/entitiesIn.ts:51 | the stores from element i are element i's store, then the stores from i + 1 |
| CoreEntitiesIn.SetEntities | src/core/entitiesIn.ts:33-54 | the loop over the descriptors leaves the table the item's writes give, and fails exactly when one of them throws |
| CoreEntitiesIn.SetEntity | src/core/entitiesIn.ts:38-53 | one descriptor's callback does that descriptor's writes and leaves the rest of the loop to do |
| CoreEntitiesIn.SetOccurrence | src/core/entitiesIn.ts:39-52 | the callback: nothing for a falsy property, else create the name's table, extract the keys and store |
| CoreEntitiesIn.EntitiesIn | src/core/entitiesIn.ts:13-31 | a fresh table filled item by item gives exactly the specified table, or the first throw |
| CoreEntitiesIn.ItemNamed | src/core/entitiesIn.ts:38-48 | an item's writes are all under descriptor names |
| CoreEntitiesIn.DataNamed | src/core/entitiesIn.ts:28 | so are the writes for the whole array |
| CoreEntitiesIn.Collected | src/core/entitiesIn.ts:13-31 | empty data gives the empty table; the table's top-level keys are only descriptor names |
| CoreEntitiesIn.CollectedIsFold | src/core/entitiesIn.ts:19-27 | each entry is the left fold of merges over its occurrences in item order, starting from `{}` |
| CoreEntitiesIn.FalsyItem | src/core/entitiesIn.ts:39-41 | an item with no truthy declared property adds nothing, not even a name's table |
| LegacyEntitiesIn.Items | src/entities.ts:30-32 | an array is scanned element by element, and anything else as one item |
| LegacyEntitiesIn.SetEntities | src/entities.ts:37-59 | the loop over the descriptors leaves the table the item's writes give, and fails exactly when one of them throws |
| LegacyEntitiesIn.SetEntity | src/entities.ts:42-58 | one descriptor's callback does that descriptor's writes and leaves the rest of the loop to do |
| LegacyEntitiesIn.SetOccurrence | src/entities.ts:43-57 | the callback: nothing for a falsy property, else create the name's table, extract the keys and store |
| LegacyEntitiesIn.SetCloned | src/entities.ts:31 | each item is passed through the cloner before it is scanned |
| LegacyEntitiesIn.EntitiesIn | src/entities.ts:14-35 | a fresh table filled item by item, from one item or an array, gives exactly the specified table, or the first throw |
| LegacyEntitiesIn.ItemNamed | src/entities.ts:42-55 | an item's writes are all under descriptor names |
| LegacyEntitiesIn.ItemsNamed | src/entities.ts:30-32 | so are the writes for every item |
| LegacyEntitiesIn.Collected | src/entities.ts:14-35 | an empty array gives the empty table; the table's top-level keys are only descriptor names |
| LegacyEntitiesIn.SchemaEntities | src/schema.ts:108-110 | a declaration without a key throws; every table of the result is named after one of the declarations |
| LegacyEntitiesIn.CollectedIsFold | src/entities.ts:61-71 | each entry is the left fold of merges over its occurrences in item order, starting from `{}` |
| LegacyEntitiesIn.FalsyItem | src/entities.ts:43-47 | an item with no truthy declared property adds nothing, not even a name's table |
| CollectedLaws.FoldSame | src/helpers/default-merge.ts:1-6 | merging the same object into itself (or into `{}`) any number of times gives that object |
| CollectedLaws.MatchingAll | src/entities.ts:68-70 | when every store to an entry writes the same object with the default merge, so does each store picked out for that entry |
| CollectedLaws.MatchingSome | src/entities.ts:68-70 | an entry some store writes to has at least one store |
| CollectedLaws.StoredValue | src/entities.ts:61-71 | when stores to an entry agree and use the default merge, the entry is the stored object |
| CollectedLaws.LookupEntry | src/helpers/retriever.ts:35 | the legacy lookup of a reference with a truthy entry finds the entry |
| CollectedLaws.ThenHas | src/entities.ts:42 | writes of a part are writes of the whole |
| CollectedLaws.ThenDefault | src/entities.ts:42 | default stores followed by default stores are default stores |
| CollectedLaws.EntityHas | src/entities.ts:53-57 | a declared object, or each object of a declared array, is stored under `${key}` of its own extract |
| CollectedLaws.EntityDefault | src/entity.ts:26 | a descriptor with the default merge stores with the default merge |
| CollectedLaws.ItemHas | src/entities.ts:42 | an item's writes hold every store of every descriptor |
| CollectedLaws.ItemDefault | src/entities.ts:42 | an item's writes use the default merge when every descriptor does |
| CollectedLaws.EntityOk | src/entities.ts:42 | an item's writes come about only if every descriptor's do |
| CollectedLaws.ItemsHas | src/entities.ts:30-32 | the writes for all items hold those of each plain object |
| CollectedLaws.ItemsDefault | src/entities.ts:30-32 | the writes for all items use the default merge when every descriptor does |
| CollectedLaws.Recover | src/entities.ts:53-57 | every declared object is found again in the collected table under its own reference |
| CollectedLaws.CollectedRecovers | src/schema.ts:108-110 | the collected table gives back every declared value of every item |
| CollectedLaws.SchemaRoundTrip | src/specs/schema.spec.ts:76-95 | `denormalize(normalize(data), entities(data))` is data, for one object or an array |

## Left out

- Object identity. Legacy results are values, so `not.toBe` (a normalize result
  is never the input object) and `toBe` (an entry is the very occurrence) are
  stated only as equality. The current engine's "returns the very object" is kept,
  as `r.value == item` on the `Item` class.
- Aliasing between nested values. The current engine's in-place writes are modelled
  on the one `Item` object. Values nested inside it are values, so two items
  sharing a nested object are not modelled.
- Circular object graphs. Finite datatypes cannot hold cycles. `linear` is modelled as
  the acyclic pre-normalisation it is; the code does no cycle detection.
- `Object.entries` order rules. Entries come in declaration order; the reordering
  of integer-like keys is not modelled. Prototype members, getters and
  non-enumerable properties are not modelled either.
- Numbers are integers. Floating point, `NaN` and its falsiness, and `-0` are not modelled.
- Keys.CountArgs: the count is by regex over `Function.prototype.toString`, which
  depends on how the engine prints source. It is modelled as the declared parameter
  count, raised to 1 for a zero-parameter function.
- Text.Lower, Text.Trim: `toLowerCase` and `trim` are modelled on ASCII only.
- User code is opaque: key functions, mergers and custom cloners are functions of
  their arguments. Mergers see `(a, b)`; key functions see the item.
- Values.SetProp: a property write succeeds only on a plain object. A custom cloner
  returning an array, onto which JavaScript would write, is modelled as a throw.
- Facade.Normalize: `src/schema.ts` builds descriptors once, at construction. The
  model rebuilds them on each call, which gives the same descriptors since building
  is pure. A declaration that throws while its descriptor is built throws on every
  call in the model, and once at `schema(...)` in the source.
- CoreEntitiesIn.SetEntities: the table left behind after a throw is not stated. The
  same holds for LegacyEntitiesIn.SetEntities, LegacyEntitiesIn.SetCloned,
  Tables.EntityTable.SetAll, Tables.EntityTable.SetEach and Tables.EntityTable.StoreAt.
  The collectors that own the table (CoreEntitiesIn.EntitiesIn, LegacyEntitiesIn.EntitiesIn)
  report the throw.
- CollectedLaws.SchemaRoundTrip: proved for plain objects under the default cloner and
  default merges. It assumes that stores to the same table entry carry equal objects,
  which the example graphs of src/specs/schema.spec.ts satisfy (the same director under both movies).
- SchemaLaws.RoundTrip: proved for key names and key functions. Nested-schema keys
  round-trip only as far as the nested schema does, and that is not stated.
- `src/helpers/is-key-of-t.ts` is a `typeof` test: a constructor test (`Name?`) on
  declaration parts.
- `instanceof Array`, `instanceof Function`, `instanceof Object` and
  `.constructor === Object` are constructor tests on the datatypes.
- `src/helpers/defaultMerge.ts` and `src/helpers/defaultClone.ts`, imported by the
  current generation, are not part of this model. They are taken to be
  `src/helpers/default-merge.ts` and `src/defaultClone.ts`.
- `src/cloner.ts`, imported by the legacy generation (src/schema.ts:1, src/process.ts:1,
  src/entities.ts:1), is not part of this model. Its `Cloner` type is a function
  from item to item, and its `defaultClone` is taken to be `src/defaultClone.ts`.

## Findings

| source | as written | input that shows it | evidently intended | confidence | as-written member | corrected member |
|---|---|---|---|---|---|---|
| src/pluralize.ts:39 | `replace(repl)` removes as many trailing characters as the replacement has (`word.slice(0, -repl.length) + repl`) | `pluralize('index')` gives 'iices' | remove the matched suffix, as the current pluralizer does (src/helpers/pluralize.ts:43), giving 'indices' | not executed | LegacyPluralizer.Pluralize | LegacyPluralizer.IntendedPluralize |

- LegacyPluralizer.IndexSteps exhibits the input; LegacyPluralizer.CompanySteps shows
  the same on the 'y' rule ('company' gives 'compies').
- The legacy descriptor builder (LegacyProperty.Describe) imports the as-written
  pluralizer, so the model keeps it there: LegacyProperty.CompanyTable shows the
  retriever then looks under a table the entity builder never fills.
- LegacyPluralizer.ReplaceCutsReplacementLength shows the as-written `ex` rule keeps the
  word's length.
- LegacyPluralizer.IntendedAgreesOnReplace proves that the corrected `replace` steps
  give the current pluralizer's answers.
