# Version and manifest computation of a CI packaging script

This project models the one piece of logic in the repository's gulpfile.js.
That logic decides which version a CI build produces and writes that version
into the two manifests that go into the extension package.

- `getVersion` reads three CI variables. The branch name falls back to
  "offline". The tag falls back to `false`. The build number falls back to a
  `YYMMDD` stamp of today's date. A tag equal to the string "true" gives the
  bare major/minor/patch. Any other run gets a prerelease channel from the
  branch prefix (`master` gives `rc`, `dev` gives `beta`, anything else gives
  `alpha`) and the build number.
- `getVersionAsText` renders the version as "M.m.p" or "M.m.p-<pre>.<build>".
- `updateExtensionManifest` rewrites `version`, `id`, `name`, `public` and
  `galleryFlags` of the extension manifest.
- `updateTaskManifest` rewrites `version.Major/Minor/Patch/Prerelease`,
  `helpMarkDown`, `friendlyName` and `id` of the task manifest.

The modules are:

- `JsStrings` (js_strings.dfy) holds the JavaScript string operations the
  script uses, on `seq<char>`: truthiness, concatenation with `undefined`,
  `toString` of a non-negative integer, `padStart`, `slice(-2)`,
  `startsWith`, `includes`. It also holds a character search `IndexOf` and a
  digit scan `DigitSpan`, which the script does not use; only the reader
  `ParseVersionText` uses them.
- `Versioning` (versioning.dfy) holds the `Version` record, `GetVersion` and
  `GetVersionAsText`. It also holds `ParseVersionText`, a separate reader of
  the rendered text, which is used to prove that rendering loses nothing.
- `Manifests` (manifests.dfy) models the two parsed manifests as classes
  whose fields the update methods assign in place. `galleryFlags` is a
  `seq<string>` field that gets one element appended.
- `Scenarios` (scenarios.dfy) states the outcome of the computation end to end on concrete
  inputs.

Inputs from the environment become parameters. The three CI variables are
`Option<string>`. `new Date()` becomes a `CalendarDate` holding the values of
`getFullYear()`, the zero-based `getMonth()` and `getDate()`. The version
read from appveyor.yml becomes a `Semver` triple of naturals. A version
property that JavaScript leaves undefined is `None`. Concatenating it renders
"undefined", as JavaScript does.

Two JavaScript rules are plain definitions in the model, with no contract of
their own. `JsStrings.Truthy` is `!!x` for undefined or a string: only a
non-empty string is truthy (the fallbacks at gulpfile.js:71-81).
`Versioning.LooselyEqualsTrueText` is `tag == 'true'` (gulpfile.js:102). A
string tag is compared as a string. The `false` fallback is compared as the
number 0 against NaN, so it never matches. What these rules mean for the
result is stated by the contracts of `EffectiveBranch`, `EffectiveBuildNumber`
and `GetVersion`.

The model keeps these behaviours of gulpfile.js as written:

- The extension id suffix is `-alpha` exactly when the rendered version text
  contains "alpha", and `-beta` otherwise (gulpfile.js:159). So an `rc`
  prerelease gets `-beta`, and a build number that contains "alpha" gives
  `-alpha` whatever the channel.
- The task manifest's `version.Prerelease` is assigned `version.Patch`
  (gulpfile.js:183). The version object has no such property, so the value
  written is undefined, not the build number.
- The manifest rewrites are not idempotent. Each prerelease rewrite of the
  extension manifest appends to `id` and `name` again and pushes another
  "Preview" gallery flag (gulpfile.js:159-162).
- Only the exact string "true" marks a tagged release (gulpfile.js:102). The
  comparison is JavaScript's loose `==` between the string "true" and either a
  string or `false`, and `false == 'true'` does not hold.

## Model

| member | source | states |
|---|---|---|
| `JsStrings.ConcatText` | gulpfile.js:120 | Concatenating a string gives that string. The text is empty only for the empty string, so `undefined` (rendered "undefined") never disappears from the result. |
| `JsStrings.NatToString` | gulpfile.js:84 | A non-negative number's `toString` is a non-empty digit string. It is a single digit exactly for numbers below 10. It starts with '0' only for zero. |
| `JsStrings.NatToStringRoundTrip` | gulpfile.js:118-125 | Reading back the decimal text of a number gives that number. |
| `JsStrings.NatToStringCanonical` | gulpfile.js:118-125 | Every digit string without a superfluous leading zero is the decimal text of the number it denotes. Number rendering is a bijection onto such strings. |
| `JsStrings.PadStart` | gulpfile.js:84 | `padStart(width, c)` keeps the string as its suffix, fills only the front with `c`, and reaches the width unless the string is already longer. |
| `JsStrings.SliceFromEnd` | gulpfile.js:84 | `slice(-k)` is a suffix of the string of length k, or the whole string when it is shorter. |
| `JsStrings.StartsWith` | gulpfile.js:105-108 | `startsWith(p)` holds exactly when the string is `p` followed by some rest. |
| `JsStrings.Contains` | gulpfile.js:159 | `includes(t)` can hold only when `t` is no longer than the string. Together with `ContainsAt` and `ContainsWitness` it holds exactly when `t` occurs at some position. |
| `JsStrings.ContainsAt` | gulpfile.js:159 | `includes` holds when the needle is a slice of the string at some position. |
| `JsStrings.ContainsWitness` | gulpfile.js:159 | When `includes` holds, the needle occurs at some position. This is the converse of `ContainsAt`. |
| `JsStrings.ContainsSkipPrefix` | gulpfile.js:159 | If no occurrence of the needle can begin inside a prefix, the prefix does not change whether `includes` holds. |
| `Versioning.ChannelName` | gulpfile.js:105-113 | The channel names contain no '.' and no '-', so they can be delimited in the rendered text. |
| `Versioning.ChannelNameRoundTrip` | gulpfile.js:105-113 | The three channel names are distinct: the name identifies the channel. |
| `Versioning.EffectiveBranch` | gulpfile.js:70-74 | A set, non-empty branch name is kept. Otherwise the result is "offline". |
| `Versioning.DateStamp` | gulpfile.js:84 | The date stamp consists only of digits and has at least five of them (six for years of at least 10; see `DateStampShape`). |
| `Versioning.EffectiveBuildNumber` | gulpfile.js:80-85 | The build number is never empty. A set, non-empty build number is kept. Otherwise the result is `DateStamp` of today's date, which for a year of at least 10 and a real month and day is six digits YYMMDD: year modulo 100, one-based month, day of the month. |
| `Versioning.TwoDigitField` | gulpfile.js:84 | A number below 100, rendered and zero-padded to two, gives two digits that denote it. |
| `Versioning.LastTwoDigits` | gulpfile.js:84 | For years of at least 10, the last two characters of the year's decimal text are two digits that denote the year modulo 100. |
| `Versioning.DateStampShape` | gulpfile.js:81-85 | The date fallback is six digits: year modulo 100, then the one-based month, then the day of the month. |
| `Versioning.GetVersion` | gulpfile.js:69-116 | Major/minor/patch are copied. The result has no prerelease exactly when the tag variable is the string "true". The channel is `rc` for a branch starting with "master", else `beta` for one starting with "dev", else `alpha`. A missing or empty branch gives `alpha`. An untagged run gets the set build number or the date stamp. Channel and build number are always both present or both absent. |
| `Versioning.CoreText` | gulpfile.js:123 | The "M.m.p" text consists only of digits and dots. |
| `Versioning.GetVersionAsText` | gulpfile.js:118-125 | The rendered text starts with "M.m.p", and is exactly "M.m.p" when there is no prerelease. The "-<pre>.<build>" form of a prerelease is pinned down by `RenderParseRoundTrip` and `ShortenedVersionDropsBuild`. |
| `Versioning.PrereleaseMarker` | gulpfile.js:118-125 | The rendered text contains '-' exactly when the version has a prerelease channel. |
| `Versioning.RenderParseRoundTrip` | gulpfile.js:118-125 | For every version whose channel and build number are set together, the independent reader `ParseVersionText` recovers the version from its rendered text. Rendering is therefore injective. |
| `Manifests.ExtensionIdSuffix` | gulpfile.js:159 | The id suffix is "alpha" or "beta". |
| `Manifests.ExtensionIdSuffixByChannel` | gulpfile.js:156-159 | For a prerelease, the suffix is "alpha" exactly when the channel is alpha or the build number contains "alpha". An rc or beta build otherwise gets "beta". |
| `Manifests.PrereleaseExtensionVersion` | gulpfile.js:158 | The prerelease extension version starts with "M.m.p"; with an all-digit build number it consists only of digits and dots. |
| `Manifests.ShortenedVersion` | gulpfile.js:181 | The short version starts with "M.m.p-". |
| `Manifests.ShortenedVersionDropsBuild` | gulpfile.js:181 | For a prerelease, the rendered text is the short version followed by "." and the build number: the friendly-name suffix omits only the build number. |
| `Manifests.UpdateExtensionManifest` | gulpfile.js:151-169 | A release sets the version to "M.m.p" and visibility to public, and leaves id, name and gallery flags unchanged. A prerelease sets the version to "M.m.p.<build>" and visibility to private. It appends "-" plus the id suffix to the id and " (<text>)" to the name. It appends exactly one "Preview" after the earlier flags. |
| `Manifests.UpdateTaskManifest` | gulpfile.js:171-188 | The nested Major/Minor/Patch are set from the version, in the same version object. The help text gets the prefix "v<text> - ". A prerelease also gets " (M.m.p-<pre>)" appended to the friendly name, its id replaced by the fixed prerelease id, and `Prerelease` undefined. A release leaves the friendly name, id and `Prerelease` unchanged. |
| `Scenarios.DateStampExample` | gulpfile.js:81-85 | 5 March 2024 gives the build number "240305". |
| `Scenarios.DevBranchOnDate` | gulpfile.js:69-125 | Version 1.2.3 on branch "dev-feature", with no tag and no build number, on 5 March 2024, resolves to beta build "240305". It renders as "1.2.3-beta.240305". |
| `Scenarios.TaggedRelease` | gulpfile.js:69-169 | A tagged 1.2.3 renders as "1.2.3". Its extension manifest becomes public with version "1.2.3", and id, name and flags are unchanged. |

## Left out

- The gulp tasks `default`, `build`, `clean`, `compile`, `package` and `upload` are left out. They only orchestrate external tools: file deletion, the TypeScript compiler, file copying and stream merging.
- `getExternalModules` is left out. It writes a trimmed package.json, runs `npm install` in a child process and deletes the file, which is all file system and process work.
- The `tfx` packaging and upload commands are left out. They are external processes.
- Reading and writing the manifest files, `JSON.parse`, and `JSON.stringify` with a 4-space indent are left out. The manifests are taken as already parsed. Properties of the JSON documents other than the modelled fields are not represented.
- The model assumes the manifests have the modelled fields with the modelled types. In the script, a missing `galleryFlags` makes `push` throw, and a missing `id` or `name` would be concatenated as "undefined".
- Reading the environment variables and `new Date()` is left out. Their values are parameters.
- Reading appveyor.yml, the version regular expression and `semver.coerce` are left out. The major/minor/patch numbers are parameters. The failure when no version is found in that file is therefore not modelled.
- The `console.log` diagnostics and `errorHandler`'s `process.exit` are left out. They are output and process termination.
- The second argument that the `upload` task passes to `updateExtensionManifest` is left out. The function ignores it.
- `JsStrings.NatToString`: does not model JavaScript number formatting for values of 1e21 and above, which use exponent notation. Version numbers that large do not arise.
- `Versioning.EffectiveBuildNumber`: states the YYMMDD shape of the fallback only for years of at least 10, for the same reason as `DateStampShape`.
- `Versioning.DateStampShape`: states the six-digit shape only for years of at least 10 and for month and day values below 100. A JavaScript `Date` always gives such month and day values. For years below 10, `slice(-2)` keeps a single digit. Negative years are not modelled, because the year is a natural number.
