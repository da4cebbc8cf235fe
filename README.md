# simple-icons-font build core in Dafny

The model covers the core of `scripts/build.js` in simple-icons-font, which turns the ordered simple-icons catalogue into an SVG font and a stylesheet. Each font style (`Regular`, `Squared`) walks the catalogue once:

- A counter starts at U+EA01, in the Private Use Area of the Basic Multilingual Plane.
- The optional slug filter `SI_FONT_SLUGS_FILTER` decides which icons are included.
- An excluded icon still uses up a slot unless `SI_FONT_PRESERVE_UNICODES` is `false`.
- Each included icon's codepoint goes through `String.fromCodePoint` and punycode's `ucs2.decode`. It is written as the numeric character reference `&#xHEX;`.
- That reference is checked against those already used.
- The path is transformed for the style.
- A glyph element is appended, and `unicodeHexBySlug[slug] = { unicode, hex }` is recorded.

The stylesheet then walks `unicodeHexBySlug` with `for…in`. For each slug it appends a content rule and a colour rule. The content rule carries the CSS escape that `cssDecodeUnicode` makes from the reference.

Modules, in dependency order:

- `Wrappers`, `BuildErrors` (`wrappers.dfy`): `Option`, `Result`, and the errors the build can throw.
- `Text` (`text.dfy`): the JavaScript string operations used here:
  - ASCII `toUpperCase`/`toLowerCase`;
  - `replace` with a string pattern, which changes the first occurrence only;
  - `split`/`join`;
  - `Number.prototype.toString(16)`.
- `Codepoints` (`codepoints.dfy`): `String.fromCodePoint`, `ucs2.decode` and the `&#xHEX;` reference.
- `Geometry` (`geometry.dfy`): `transform`, `convertToAspectRatioViewbox` and `verticalTransform`. A path is kept as the chain of svgpath operations applied to it, together with the bounding box that svg-path-bbox reports.
- `BuildConfig` (`config.dfy`): the two environment variables.
- `SvgFont` (`svg_font.dfy`): the walk of `buildSimpleIconsSvgFontFile`.
  - `BuildGlyphTable` is the loop, with `VisitIcon` as its body.
  - Both are proved against closed-form definitions of what the walk produces after `n` icons: `IncludedIndices`, `Codepoint`, `UsedReferences`, `Glyphs`, `Table` and `IconError`.
- `Allocation` (`allocation.dfy`): what the walk promises about codepoints and errors.
- `TableOrder` (`table_order.dfy`): the order and contents of `unicodeHexBySlug`.
- `Stylesheet` (`stylesheet.dfy`): `cssDecodeUnicode`, the `for…in` visiting order and the rule loop of `buildSimpleIconsCssFile` (`BuildCss`).
- `EndToEnd` (`end_to_end.dfy`): the walk and the stylesheet together, and a worked two-icon build.

Both styles run the same allocation: `Table`, `IncludedIndices` and `Codepoint` do not depend on the style. So the slug table that the stylesheet is built from is the same whichever style produced it.

Two behaviours of the code are easy to misread, and the model states them as the code has them:

- **Regular geometry.** A 48x24 glyph is not shrunk into the view box. The code scales a box wider than tall by `24 / height`, which is 1 for that box, so the glyph keeps its size and gets an advance of 2400 (`Geometry.WideAdvance`).
- **Stylesheet order.** The stylesheet does not always follow catalogue order. `unicodeHexBySlug` is a JavaScript array used as a dictionary, and `for…in` visits its canonical array-index keys first, in ascending numeric order, and only then the other keys in insertion order. A slug such as `42` would therefore come first (`Stylesheet.IndexSlugVisitedFirst`). Catalogue order holds when no slug is an array index (`EndToEnd.StylesheetFollowsCatalogue`).

## Model

| member | source | states |
|---|---|---|
| Text.ReplaceFirst | scripts/build.js:59 | `replace` with a string pattern: unchanged when the pattern does not occur; otherwise only the first occurrence is replaced, and the text around it is kept |
| Text.Split | scripts/build.js:63 | `split(',')` yields at least one piece, no piece contains the separator, and joining the pieces gives back the input |
| Text.SplitJoin | scripts/build.js:63 | splitting a comma-joined list of separator-free strings gives back exactly that list |
| Text.ToHexString | scripts/build.js:118 | `toString(16)` yields at least one lower-case hex digit and has a leading `0` only for zero |
| Text.HexReadBack | scripts/build.js:118 | reading the hex digits back gives the number, so the hex text identifies the codepoint |
| Text.LowerUpperHex | scripts/build.js:59 | lower-casing the upper-cased hex digits gives back `toString(16)` |
| Text.IndexOf | scripts/build.js:59 | `indexOf` returns -1 exactly when the pattern occurs nowhere; otherwise a position where it occurs, with no occurrence before it |
| Codepoints.FromCodePoint | scripts/build.js:115 | `String.fromCodePoint` throws a RangeError exactly above U+10FFFF; otherwise one UTF-16 unit below U+10000 and a surrogate pair from U+10000 up |
| Codepoints.Ucs2Decode | scripts/build.js:114-116 | `ucs2.decode` joins a high and a low surrogate into one codepoint and keeps any other unit; its round trip is stated by `Codepoints.DecodeFromCodePoint` |
| Codepoints.DecodeFromCodePoint | scripts/build.js:114-116 | `ucs2.decode` of the units of any valid codepoint gives back exactly that codepoint |
| Codepoints.Reference | scripts/build.js:117-119 | `&#x` + upper-case `toString(16)` + `;`; it reads back to the codepoint (`Codepoints.ReferenceReadBack`) and is injective (`Codepoints.ReferenceInjective`) |
| Codepoints.ReferenceReadBack | scripts/build.js:117-119 | the hex digits between `&#x` and `;` read back to the codepoint |
| Codepoints.ReferenceInjective | scripts/build.js:117-122 | two references are equal if and only if their codepoints are |
| Codepoints.UnicodeString | scripts/build.js:114-119 | `fromCodePoint`, `ucs2.decode`, then the map and join; its result is stated by `Codepoints.UnicodeStringIsReference` |
| Codepoints.UnicodeStringIsReference | scripts/build.js:114-119 | the `unicodeString` computation yields exactly `&#x` + upper-case hex + `;` up to U+10FFFF, and the RangeError past it |
| Geometry.AspectRatioPath | scripts/build.js:76-78 | the rescaled, reset path stays one whose bounding box is known |
| Geometry.VerticalTransform | scripts/build.js:68-69 | translate by -24, scale by (50, -50), round to 6 digits; both styles emit the path through it (`Geometry.Transform`) |
| Geometry.Rescaled | scripts/build.js:75-76 | the rescaled path keeps a known bounding box; its size is stated by `Geometry.WideRescaledBox` and `Geometry.AspectRatioBox` |
| Geometry.WideRescaledBox | scripts/build.js:75-76 | a path wider than tall is scaled by `24 / height`, so its height becomes 24 and its width `width * 24 / height` |
| Geometry.ResetBox | scripts/build.js:77-78 | the reset path's box starts at the origin and has the rescaled path's size |
| Geometry.AspectRatioBox | scripts/build.js:71-79 | `pathReset` starts at the origin; a wide path is 24 high and keeps its aspect ratio, any other keeps its size |
| Geometry.ConvertToAspectRatioViewbox | scripts/build.js:71-84 | the vertically transformed reset path with advance equal to the reset width / 24 * 1200; its advance is stated by `Geometry.AdvanceIsResetWidth` and `Geometry.RegularAdvance` |
| Geometry.Transform | scripts/build.js:86-97 | succeeds exactly for `Regular` and `Squared`; any other style throws `Invalid style`; `Squared` always has advance 1200 and the vertically transformed original path |
| Geometry.RegularAdvance | scripts/build.js:71-89 | the Regular advance is 1200 times the aspect ratio for a path wider than tall, and 1200 times width / 24 otherwise |
| Geometry.WideAdvanceIsAspectRatio | scripts/build.js:75-82 | for a wide path the advance is width / height * 1200 |
| Geometry.AdvanceIsResetWidth | scripts/build.js:79-82 | the advance is the reset box's width / 24 * 1200 |
| Geometry.SquareAdvance | scripts/build.js:71-84 | a 24x24 glyph gets advance 1200 |
| Geometry.NarrowAdvance | scripts/build.js:71-84 | a 12x24 glyph gets advance 600 |
| Geometry.WideAdvance | scripts/build.js:71-84 | a 48x24 glyph is scaled by 1 and gets advance 2400 |
| BuildConfig.ParseFilter | scripts/build.js:62-63 | no slug in the filter set is empty or contains a comma, and an unset or empty variable gives the empty set |
| BuildConfig.FilterOfList | scripts/build.js:63 | a comma-separated list selects exactly its non-empty entries |
| BuildConfig.ParsePreserve | scripts/build.js:64 | preservation is on if and only if the variable is not exactly `false` |
| BuildConfig.PreserveUnlessFalse | scripts/build.js:62-64 | unset, empty, `False` and `0` keep preservation on; only `false` turns it off |
| BuildConfig.ParseConfig | scripts/build.js:62-64 | an unset or empty filter selects nothing, no filter entry is empty or contains a comma, and preservation is on if and only if the variable is not exactly `false` |
| SvgFont.IconKey | scripts/build.js:107 | throws exactly for the empty slug; otherwise the key is `si` followed by as many characters as the slug has |
| SvgFont.IconKeyInjective | scripts/build.js:107 | slugs that do not start with an upper-case letter get distinct keys |
| SvgFont.IncludedIndices | scripts/build.js:109-112 | after `n` icons at most `n` positions are included, each below `n` |
| SvgFont.IncludedIndicesExact | scripts/build.js:109-112 | the included positions are exactly those the filter keeps (an empty filter keeps all), in strictly increasing order |
| SvgFont.Codepoint | scripts/build.js:102-116 | the `k`-th included icon at position `i` gets `0xEA01 + i` with preserved slots and `0xEA01 + k` without; how the counter moves is stated by `SvgFont.WalkExcluded` and `SvgFont.WalkIncluded`, and the resulting codepoints by `Allocation.PreservedMatchesUnfiltered` and `Allocation.CompactCodepoints` |
| SvgFont.IconError | scripts/build.js:107-130 | the error an icon throws, in the order the code meets them: the empty slug exactly when the slug is empty; nothing for an excluded icon with a non-empty slug; `Invalid style` only for a style outside `Regular`/`Squared`; the invalid array length only for the slug `length` |
| SvgFont.TableOfKeys | scripts/build.js:130-133 | in `unicodeHexBySlug` every slug is listed once, the listed slugs are exactly those with an entry, and every assigned slug has one |
| SvgFont.Put | scripts/build.js:130-133 | `unicodeHexBySlug[slug] = entry`; what it does is stated by `SvgFont.PutSemantics` |
| SvgFont.PutSemantics | scripts/build.js:130-133 | after the assignment the slug reads back the new entry, every other slug keeps its presence and value, the keys already listed keep their places, and a new slug is listed last |
| SvgFont.TableOfAppend | scripts/build.js:130-133 | assigning one more slug puts a new slug last and updates a known one in place |
| SvgFont.UsedStep | scripts/build.js:109-128 | `usedUnicodes` grows by the icon's reference when the icon is included, and by nothing otherwise |
| SvgFont.GlyphsStepIncluded | scripts/build.js:125-127 | an included icon appends exactly its own glyph |
| SvgFont.GlyphsStepExcluded | scripts/build.js:109-112 | an excluded icon adds no glyph |
| SvgFont.ItemsStep | scripts/build.js:109-133 | an included icon assigns exactly its own slug, reference and hex, and an excluded one assigns nothing |
| SvgFont.WalkStart | scripts/build.js:100-103 | before the first icon the counter is U+EA01 and every accumulator is empty |
| SvgFont.WalkExcluded | scripts/build.js:109-112 | an excluded icon changes only the counter, and only when slots are preserved |
| SvgFont.WalkIncluded | scripts/build.js:114-133 | an included icon takes the counter's codepoint, advances the counter by one and appends its reference, glyph and table entry |
| SvgFont.AdvanceExcluded | scripts/build.js:109-112 | from a state the walk reaches, an excluded icon with a non-empty slug leads to the next reached state, with the counter moved only when slots are preserved |
| SvgFont.AdvanceIncluded | scripts/build.js:114-133 | from a state the walk reaches, an included icon that throws nothing leads to the next reached state, with its reference, glyph and entry appended |
| SvgFont.VisitIcon | scripts/build.js:106-133 | one turn of the loop either throws the icon's error, which is then the catalogue's first error, or yields exactly the accumulators after that icon |
| SvgFont.BuildGlyphTable | scripts/build.js:99-134 | succeeds if and only if no icon throws; then it returns one glyph per included icon in catalogue order and the matching slug table; otherwise it returns the error of the first icon that throws |
| Allocation.UnfilteredIndices | scripts/build.js:109 | with an empty filter every icon is included, at its own position |
| Allocation.UnfilteredCodepoint | scripts/build.js:102-118 | with an empty filter the `k`-th icon gets `&#x` + upper-case hex of `0xEA01 + k` + `;` |
| Allocation.PreservedMatchesUnfiltered | scripts/build.js:109-116 | with slots preserved, a kept icon gets `0xEA01 +` its catalogue position, the same reference as in the unfiltered build |
| Allocation.CompactCodepoints | scripts/build.js:109-116 | without preserved slots the kept icons get `0xEA01, 0xEA02, …` in catalogue order |
| Allocation.CodepointsIncrease | scripts/build.js:102-116 | a later included icon always gets a larger codepoint |
| Allocation.DistinctReferences | scripts/build.js:114-122 | no two included icons share a reference |
| Allocation.FreshReference | scripts/build.js:114-122 | the reference an icon would get is never among those already used |
| Allocation.NeverDuplicate | scripts/build.js:120-122 | the `Unicodes must be unique` error is never thrown |
| Allocation.NoErrorsWhen | scripts/build.js:105-133 | the walk gets through the catalogue when the style is valid, no slug is empty or `length`, and at most 0x10FFFF - 0xEA01 + 1 slots are needed |
| Allocation.InvalidStyleError | scripts/build.js:94-95 | an included icon with a usable slug and codepoint throws `Invalid style` for an unknown style |
| Allocation.OverflowError | scripts/build.js:114-116 | the icon that would take the slot past U+10FFFF throws a RangeError for U+110000 |
| Allocation.LengthSlugError | scripts/build.js:130 | an included icon with the slug `length`, a valid style and a codepoint in range throws the invalid array length error at the assignment |
| Allocation.PrivateUseSlots | scripts/build.js:102 | a slot's codepoint is in the Private Use Area (up to U+F8FF) exactly for the first 3839 slots |
| TableOrder.TableOfDistinct | scripts/build.js:130-133 | assigning distinct slugs lists them in assignment order, each mapped to the entry assigned to it |
| TableOrder.TableFollowsCatalogue | scripts/build.js:105-133 | with distinct slugs, `unicodeHexBySlug` lists the included icons in catalogue order, each with its own reference and hex |
| Stylesheet.CssEscapeOfReference | scripts/build.js:57-60 | `cssDecodeUnicode` turns the reference of a codepoint into `\` followed by its lower-case hex digits (`&#xEA01;` becomes `\ea01`) |
| Stylesheet.CssDecodeUnicode | scripts/build.js:57-60 | the decoded text holds no upper-case letter and is never longer than its input |
| Stylesheet.DropSemicolon | scripts/build.js:59 | `replace(';', '')` on `\` + hex + `;` removes only the final `;` |
| Stylesheet.IndexKeys | scripts/build.js:150 | the keys `for…in` visits first, in insertion order; that they are all canonical array indices is stated by `Stylesheet.KeyGroups` |
| Stylesheet.OtherKeys | scripts/build.js:150 | the keys `for…in` visits after them, in insertion order; that none of them is an array index is stated by `Stylesheet.KeyGroups` |
| Stylesheet.KeyGroups | scripts/build.js:150 | every key of the first group is a canonical array index and no key of the second group is one |
| Stylesheet.InsertIndex | scripts/build.js:150 | inserting one index key adds exactly that key |
| Stylesheet.InsertIndexAscending | scripts/build.js:150 | insertion keeps index keys in ascending numeric order |
| Stylesheet.SortIndices | scripts/build.js:150 | ordering the index keys is a permutation of them |
| Stylesheet.SortIndicesAscending | scripts/build.js:150 | the index keys are visited in ascending numeric order |
| Stylesheet.ForInOrder | scripts/build.js:150 | the `for…in` visiting order is a permutation of the table's keys: every key is visited exactly once |
| Stylesheet.ForInIndicesFirst | scripts/build.js:150 | array-index keys come first, in ascending numeric order, followed by the other keys |
| Stylesheet.ForInInsertionOrder | scripts/build.js:150 | without array-index keys, `for…in` follows insertion order |
| Stylesheet.IndexSlugVisitedFirst | scripts/build.js:150 | a slug `42` added after `github` is visited before it |
| Stylesheet.RulesStep | scripts/build.js:150-155 | each visited slug adds its content rule and then its colour rule after the rules already written |
| Stylesheet.ForInCovered | scripts/build.js:150-151 | every visited slug has an entry to read |
| Stylesheet.ContentRule | scripts/build.js:154 | the content rule is one line starting with a newline when slug and escape contain none |
| Stylesheet.ColorRule | scripts/build.js:155 | the colour rule is one line starting with a newline when slug and hex contain none |
| Stylesheet.RuleBlock | scripts/build.js:153-155 | the text appended for one slug splits into exactly two such lines |
| Stylesheet.BuildCss | scripts/build.js:145-156 | the stylesheet is the base followed by the two rules of every slug, in `for…in` order |
| EndToEnd.RulesOfListed | scripts/build.js:150-155 | for a table that lists given icons in order, the rules are a content rule with `\` + lower-case hex of the codepoint and a colour rule with `#` + hex, per icon in that order |
| EndToEnd.TableListsAllocated | scripts/build.js:105-133 | with distinct slugs the final table lists exactly the allocated icons |
| EndToEnd.StylesheetFollowsCatalogue | scripts/build.js:99-155 | with distinct slugs that are not array indices, the stylesheet's rules follow the catalogue, each naming the escape of the icon's own codepoint and its own colour |
| EndToEnd.HexOfFirstSlots | scripts/build.js:118 | U+EA01 and U+EA02 are written `ea01` and `ea02` in hex |
| EndToEnd.TwoIconAllocation | scripts/build.js:102-118 | unfiltered, the first icon gets U+EA01 and the second U+EA02 |
| EndToEnd.TwoIconsBuild | scripts/build.js:105-133 | the two-icon catalogue builds the Regular font without an error |
| EndToEnd.TwoIconStylesheet | scripts/build.js:145-155 | the two-icon stylesheet gets the rules of `a` with `\ea01` and `#ff0000`, then those of `b` with `\ea02` and `#00ff00` |

## Left out

- Geometry.Transform: Regular requires a path whose bounding box the model can follow, and a positive height when the path is wider than tall. A zero-height wide path would divide by zero, which JavaScript turns into `Infinity`/`NaN`, and real arithmetic has no such values. The same requirement is carried by SvgFont.BuildGlyphTable and SvgFont.VisitIcon for the Regular style (`SvgFont.RegularReady`). It covers only icons the filter includes, but it also covers included icons after the first one that throws, which the code never transforms.
- Geometry.Rescaled: requires `Drawable`, so a path wider than tall with zero height is excluded. The code scales such a path by `24 / 0 = Infinity` without throwing, and real arithmetic has no such value.
- Geometry.AspectRatioPath: requires `Drawable`, so it excludes the same zero-height wide path, which the code rescales by `Infinity` and then translates by offsets that are no longer finite.
- Geometry.ConvertToAspectRatioViewbox: requires `Drawable`, so it excludes the zero-height wide path, for which the code emits a NaN path and advance instead of throwing.
- SvgFont.VisitIcon: requires `SvgFont.RegularReady` for the Regular style. It therefore excludes any catalogue where an icon the filter includes has a zero-height wide path, even when that icon comes after the first icon that throws and is never transformed by the code.
- SvgFont.BuildGlyphTable: requires `SvgFont.RegularReady` for the Regular style. It therefore excludes any catalogue where an icon the filter includes has a zero-height wide path, even one after the first icon that throws, which the code never reaches. For such a path before the first throw, the code writes NaN into the font instead of throwing.
- Path printing: `svgpath`'s `toString`, the rounding to 6 digits and the number formatting of `horizAdvX` are not modelled. A path is kept as the chain of operations applied to it, with its bounding box.
- The glyph content is kept as a sequence of `Glyph` values. Their rendering as `<glyph …/>` text is not modelled.
- Upper- and lower-casing covers ASCII letters only. JavaScript's full Unicode case mapping affects only a slug whose first character is a non-ASCII letter; hex digits are always ASCII.
- Icon lookup: `getIconsData`, `getIconSlug` and `simpleIcons[key]` are external data. The catalogue is given as `(slug, hex, path)` records, and the looked-up icon is assumed to carry the same slug.
- `for…in`: only keys assigned by the build are considered; inherited properties are not enumerable. A slug `length` is modelled: assigning an object to an array's `length` throws a RangeError at the assignment, `BuildErrors.InvalidArrayLength`. A slug `__proto__` is not modelled: that assignment replaces the array's prototype instead of adding a key, and the model treats it as an ordinary key.
- Floating point: geometry uses exact real arithmetic, while the code computes in IEEE-754 doubles. Rounding in `24 / height`, in the scaled coordinates and in the advance is not modelled. The bounding box that svg-path-bbox reports is taken as exact; curve extrema are not computed.
- Environment and files: the environment variables are parameters of `BuildConfig.ParseConfig`, and the base stylesheet is a string parameter of `Stylesheet.BuildCss`. Template reading, `util.format`, file writes and directory creation are I/O.
- The binary font encoders (svg2ttf, ttf2woff, ttf2woff2, ttf2eot, woff2otf) are foreign calls, and CleanCSS minification is an external library. Neither is modelled.
- Promise orchestration and the parallel build of the two styles are asynchronous scheduling. Both styles run the same allocation, so they produce the same table.
- `preview/assets/script.js` is browser glue with no modellable logic.
