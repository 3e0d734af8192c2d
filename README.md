# gemstone-config-webpack: the original logic of the configuration builder

`gemstone-config-webpack.js` exports one function that builds the bundler
configuration for a Gemstone application. Almost all of it wires up
third-party plugins and loaders. This project models the parts that are its
own logic and proves properties of them:

- **SVG font/image classifier** (`svgIsFont`, lines 77-88). A closure over a
  mutable map from path to flag. On a miss it reads the file and tests the
  text against `<font[^>]*>(.|\r?\n)*<\/font>`. It then stores the constant
  `true`, not the computed value. The two nested SVG rules (lines 262 and
  268, repeated at 354 and 360) each call it, so one SVG module queries it
  twice. Modules: `FontPattern` (the regular expression) and `SvgClassifier`
  (the cache as a class, plus callers of it).
- **Build-hash display form** (lines 472-479). The digest is upper-cased.
  Only its characters at even indices are kept. Then a `.` goes after every
  run of four `[0-9A-F]` characters followed by a character other than a
  line terminator. Module
  `BuildHash`.
- **Progress message shortening** (lines 143-144). Module `ProgressMessage`.
- **Merging the user's module settings** (lines 427-454). User aliases are
  written over the built-in alias table. User loader rules are unshifted in
  front of the seven built-in library rules. User provides are written over
  the default provide table. Module `ModuleConfig`. The configuration object
  is the class `WebpackConfig`; the provide table is a local map, as in the
  source.

`JsText` holds the JavaScript line-terminator class. Both regular
expressions need it.

Inputs taken as parameters:

- The file system is a map from path to text, given to each query. A path
  missing from it is the `fs.readFileSync` failure. That failure becomes
  `Err(ReadError(path))`; the classifier does not catch it.
- The hex digest from `hashFiles.sync` is an input string.
- `require.resolve` is left abstract: a loader is the string `<key>-loader`.
- A user rule's `use` object is a sequence of (key, options) pairs in key
  order. Options are kept as their text.

Line 83 computes `isFont` and line 86 returns it, but line 84 stores the
constant `true`, so a later query of the same path answers `true` whatever
the file holds. The model follows the code (see Findings).

The model also assumes that the bundler evaluates the two nested SVG rule
tests in order, the image test of line 262 first. An error thrown by the
first test stops the second.

## Model

| member | source | states |
|---|---|---|
| `FontPattern.BodyMatchesIff` | gemstone-config-webpack.js:83 | `BodyMatches`, the `(.|\r?\n)*` part, matches a text exactly when the text has no U+2028 or U+2029 and every CR is directly followed by LF |
| `FontPattern.FontElementFound` | gemstone-config-webpack.js:83 | any text holding `<font`, then characters other than `>`, then `>`, a body with no lone CR and no U+2028/U+2029, then `</font>`, satisfies `FontElementMatch` (the whole pattern searched anywhere) wherever that element stands |
| `FontPattern.FontFaceOpensElement` | gemstone-config-webpack.js:83 | `[^>]*` lets `<font-face/>` open the element, so `<font-face/></font>` matches |
| `FontPattern.BreakingTerminatorDefeatsMatch` | gemstone-config-webpack.js:83 | `<font>`, then one lone CR, U+2028 or U+2029, then `</font>` does not satisfy `FontElementMatch`: neither `.` nor `\r?\n` takes that character |
| `SvgClassifier.SvgFontCache.constructor` | gemstone-config-webpack.js:78 | the cache starts empty and nothing has been read |
| `SvgClassifier.SvgFontCache.IsFont` | gemstone-config-webpack.js:79-87 | a hit returns `true` and changes nothing; a miss reads the file once; if the file exists it returns whether the text matches the pattern and stores `true` for that path only; a missing file returns a read error and stores nothing; every stored flag stays `true` |
| `SvgClassifier.SvgFontCache.MatchSvgRules` | gemstone-config-webpack.js:260-274 | the image test then the font test of one SVG module; a cached path gets only the font rule; an uncached existing path gets the image rule exactly when it is not a font, and always the font rule; the file is read at most once for both tests, and only when the path was not cached |
| `SvgClassifier.SvgRulesOnFreshCache` | gemstone-config-webpack.js:260-274 | on a fresh cache the font rule applies to every existing SVG, and the image rule applies exactly to the non-font ones, so a non-font SVG gets both loaders |
| `SvgClassifier.QueryTwice` | gemstone-config-webpack.js:80-86 | two queries of an existing path: the first is the content test, the second is `true`; for a non-font file they differ; a missing file fails both times |
| `SvgClassifier.CorrectedSvgFontCache.IsFont` | gemstone-config-webpack.js:79-87 | the intended classifier: as above, but a miss stores the computed value, and a hit returns what was stored |
| `SvgClassifier.CorrectedQueryTwice` | gemstone-config-webpack.js:80-86 | with the corrected store, two queries of a path return the same result |
| `SvgClassifier.CorrectedQueryAll` | gemstone-config-webpack.js:77-88 | on one shared corrected classifier, every query in a sequence answers the classification of its file whatever was queried before, and a read error for a missing file |
| `SvgClassifier.QueryAll` | gemstone-config-webpack.js:77-88 | the answers, reads and final cache of one fresh classifier over a sequence of queries are `Answers`, `Misses` and `Stored` of that sequence |
| `SvgClassifier.AnswersAt` | gemstone-config-webpack.js:80-86 | query `j` is a read error if the file is missing, `true` if the path was queried before, and otherwise the file's content test |
| `SvgClassifier.StoredKeys` | gemstone-config-webpack.js:78-85 | the cache holds exactly the queried paths whose file exists, all mapped to `true`; no entry is ever removed |
| `SvgClassifier.MissesReadOnce` | gemstone-config-webpack.js:80-83 | each existing file is read once however often it is queried; a missing file is tried on every query |
| `BuildHash.ToUpper` | gemstone-config-webpack.js:477 | same length; a hex digit comes out as `[0-9A-F]`; no lower-case ASCII letter is left; every other character is kept |
| `BuildHash.EvenIndexed` | gemstone-config-webpack.js:478 | `ceil(n/2)` characters, character `i` being input character `2i` |
| `BuildHash.InsertDotsOnlyAddsDots` | gemstone-config-webpack.js:479 | removing the dots from `InsertDots` (the global replace) gives the input with its dots removed |
| `BuildHash.InsertDotsKeepsLast` | gemstone-config-webpack.js:479 | the result ends with the input's last character |
| `BuildHash.InsertDotsShort` | gemstone-config-webpack.js:479 | four characters or fewer are left unchanged |
| `BuildHash.InsertDotsOnHex` | gemstone-config-webpack.js:479 | `InsertDots` on `[0-9A-F]` text of length `n`, the result has `n + (n-1)/4` characters, a dot at every index `i` with `i % 5 == 4`, and the input in order everywhere else |
| `BuildHash.DigestFormat` | gemstone-config-webpack.js:472-479 | `FormatBuildHash` (the chain of lines 477-479) of a 32-character hex digest has 19 characters, dots at 4, 9 and 14 and `[0-9A-F]` elsewhere ("HHHH.HHHH.HHHH.HHHH") |
| `BuildHash.FormatWithoutDots` | gemstone-config-webpack.js:477-479 | for a digest without dots, deleting the dots of the formatted hash gives the even-indexed characters of the upper-cased digest, `ceil(n/2)` of them |
| `BuildHash.FormatDotPlacement` | gemstone-config-webpack.js:477-479 | the formatted hash never ends with a dot, and has no dot when the digest has at most 8 characters |
| `ProgressMessage.Shorten` | gemstone-config-webpack.js:143-144 | a message over 40 characters becomes its first 40 followed by `...`; any other is unchanged; the result has at most 43 characters |
| `ProgressMessage.ShortenIdempotent` | gemstone-config-webpack.js:143-144 | shortening a shortened message changes nothing |
| `ProgressMessage.ShortenKeepsPrefix` | gemstone-config-webpack.js:143-144 | the shown message starts with the message's first `min(n, 40)` characters |
| `ModuleConfig.OverlayAt` | gemstone-config-webpack.js:427-429 | in `Overlay`, the table after the assignments of lines 428 and 453, a key is present when it was a default or some entry names it; it maps to the last naming entry's value, and an unnamed key keeps its default |
| `ModuleConfig.OverlayKeepsKeys` | gemstone-config-webpack.js:427-429 | no default key is removed |
| `ModuleConfig.LastIndex` | gemstone-config-webpack.js:452-454 | the position of the last entry naming a key: it names the key and no later entry does |
| `ModuleConfig.PrependedShape` | gemstone-config-webpack.js:432-444 | `Prepended`: after `k` unshifts (lines 440-443) the list has `k` more entries: the user rules last-first, then the previous list unchanged and in order |
| `ModuleConfig.BuildUses` | gemstone-config-webpack.js:433-439 | one loader entry per `use` key, in key order, with loader `<key>-loader` and that key's options |
| `ModuleConfig.CollectProvides` | gemstone-config-webpack.js:447-454 | the provide table is the three defaults overlaid by the user provides in order |
| `ModuleConfig.WebpackConfig.constructor` | gemstone-config-webpack.js:203-285 | the alias table starts as the five built-in aliases, with the `.dev` bundle outside production; the library rules are the seven built-ins |
| `ModuleConfig.WebpackConfig.AddAliases` | gemstone-config-webpack.js:427-429 | the alias table becomes the old one overlaid by the user aliases; the rules are unchanged |
| `ModuleConfig.WebpackConfig.AddLoaderRules` | gemstone-config-webpack.js:432-444 | the library rules become the old list with each user rule unshifted in turn; the aliases are unchanged |
| `ModuleConfig.MergeModules` | gemstone-config-webpack.js:427-454 | from a fresh configuration: aliases and provides are the defaults overlaid by the user entries; the library rules are `7 + k` entries, the converted user rules last-first, then the seven built-ins in order |

## Left out

- Building the bundler, plugin and loader objects and their literal options (lines 92-424, 455, 469, 485-552): calls into third-party libraries whose behaviour is not visible here.
- The HTML skeleton (lines 45-70): template text through `strip-indent`, with little behaviour of its own.
- The md5 digest over the source tree (lines 473-476): the digest is an input.
- Reading the file (line 82): the file system is a map from path to text; UTF-8 decoding is not modelled.
- The build time (line 482): it depends on the wall clock, the time zone and the date library's format tokens.
- The progress bar bookkeeping (lines 145-149): floating-point percentages and console output.
- The pre-build and post-build handlers (lines 151-182): asynchronous file-system work through foreign libraries.
- Module replacements (lines 458-470) and `new RegExp(rule.test)` (line 441): their meaning is JavaScript regular expressions built from user strings; a rule's `test` is kept as its source text.
- The path tests of the rules (lines 101-106, 222-225, 291-293, 309-317): one-line substring checks whose effect is the bundler's rule matching.
- `require.resolve`: a loader is the plain string `<key>-loader`.
- JavaScript objects used as maps: keys inherited from `Object.prototype` (`__proto__`, `constructor`, ...) and the ordering of integer-like keys in `Object.keys` are not modelled; `use` keys come as a sequence already in key order.
- Key order of the alias table: the bundler tries `resolve.alias` keys in object key order, and a Dafny map does not record whether a user alias overwrote a built-in one in place or was added after the others.
- `require.resolve` (line 436) throws for a loader that is not installed, and `new RegExp(rule.test)` (line 441) throws for a malformed pattern; both error paths are not modelled, so every user rule is taken to convert.
- JavaScript strings are UTF-16 code units, Dafny strings are Unicode scalar values: texts with characters outside the Basic Multilingual Plane have different lengths and indices.
- BuildHash.ToUpper: upper-cases the ASCII letters only, because the input is a hex digest; `toUpperCase` also maps other letters, some to two characters.
- ProgressMessage.Shorten: counts characters rather than UTF-16 code units.

## Findings

| source | as written | input that shows it | evidently intended | confidence | as-written member | corrected member |
|---|---|---|---|---|---|---|
| gemstone-config-webpack.js:84 | a miss stores the constant `true` under the path, so every later query of that path answers `true` | an existing SVG whose text has no font element, queried twice (as the tests at lines 262 and 268 do for one module): `false`, then `true`; the module gets both the image and the font loader | store the computed `isFont`, so repeated queries agree | high; not executed | `SvgClassifier.QueryTwice` | `SvgClassifier.CorrectedQueryAll` |

The rest of the model keeps the code as written, because that is what the
build does. `SvgClassifier.SvgRulesOnFreshCache` shows the effect on the SVG
rules. `SvgClassifier.CorrectedSvgFontCache` is the corrected classifier;
`SvgClassifier.CorrectedQueryTwice` and `SvgClassifier.CorrectedQueryAll`
state that its repeated answers agree.
