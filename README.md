# Template-HTML bundler, modelled in Dafny

Template-HTML is a static HTML template bundler. The command `tmpl run` picks the HTML files
among its arguments. For each one it reads the document and finds every `tmpl` element. It
loads the fragment file named by the element's `src` attribute. The element's child elements
become variables: a child's `tagName` is the variable name and its `innerHTML` is the value. The
fragment is evaluated as a JavaScript template literal with those variables in scope. The
resulting HTML replaces the element. A document is written out only when every one of its
`tmpl` elements resolved.

The model has six modules:

- `Wrappers` (wrappers.dfy): `Option`, which stands for JavaScript's `undefined` and for `??` defaults.
- `Seqs` (seqs.dfy): three facts about sequence prefixes and suffixes that the loops and the path lemmas use.
- `JsString` (jsstring.dfy): the ECMAScript string built-ins the program uses, for the inputs
  the program gives them (the limits are listed under "Left out"). These are `replaceAll` with a string pattern, `slice` with negative and clamped
  indices, `lastIndexOf` returning -1, `endsWith`, `toLowerCase`, `join` and the `toString` of integers.
- `StatusCodes` (status.dfy): `StatusCode` from tmpl.ts. It has a module of its own because
  core/bundler.ts imports it from tmpl.ts, and Dafny modules cannot import each other in a cycle.
- `Bundler` (bundler.dfy): core/bundler.ts. This covers `cleanupPath`, `parseArguments`,
  `argumentVariableDeclarations`, `loadTemplate` and `Bundle`. The document is a class whose
  `replaceWith` changes one element's slot in place. `Bundle` walks the elements with a loop that
  keeps a `failed` flag.
- `Tmpl` (tmpl.dfy): tmpl.ts. This covers `command`, `mapCommand`, `argFiles`, the path and
  output-name derivation in `run`, the `run` status rules, and the status logic of `main`
  (named `Invoke` here, because a method called `Main` is an entry point in Dafny).

The program's collaborators are inputs to the model:

- The file system is a `map` from path to content. A read fails exactly when the path is absent.
- `existsSync` is membership in a set of existing paths.
- The HTML parser gives the `tmpl` elements of a document in document order, or nothing when it
  returns no document.
- `eval` is an arbitrary function from the expression text to a value or a thrown message.
- The parsed flags, the positional arguments and `currentDir` are given values.

Three behaviours of the source are worth stating up front:

- Whether `tmpl` elements inserted by a replacement are visited depends on the collection the
  DOM library returns from `getElementsByTagName` (core/bundler.ts:31-32). The model attempts only
  the elements found when the document was parsed, once each.
- `main` never exits the process with a code (tmpl.ts:97-126). Its final status only selects the
  closing message.
- The help text of `run` advertises `--outD` (tmpl.ts:44), but the code reads the flag `outDir`
  (tmpl.ts:75). The model reads `outDir`.

## Model

| member | source | states |
|---|---|---|
| `Bundler.CleanupPathUnchanged` | core/bundler.ts:4-6 | a path with no `%20` comes back unchanged |
| `Bundler.CleanupPathClean` | core/bundler.ts:5 | the result of `cleanupPath` contains no `%20` |
| `Bundler.CleanupPathIdempotent` | core/bundler.ts:5 | cleaning a path twice equals cleaning it once |
| `Bundler.CleanupPathLength` | core/bundler.ts:5 | the result is shorter by exactly 2 characters per `%20` occurrence in the input |
| `Bundler.CleanupPathHead` | core/bundler.ts:5 | the first character of the result is a space for a leading `%20`, the input's first character otherwise |
| `Bundler.ParseArguments` | core/bundler.ts:107-116 | one argument per child element, in child order; the name is the tag name and the value the inner HTML |
| `Bundler.ArgumentVariableDeclarations` | core/bundler.ts:118-120 | empty exactly for no arguments; otherwise it begins with the first declaration and ends with `;`, so there is no trailing newline |
| `Bundler.DeclarationsSingle` | core/bundler.ts:119 | one argument gives exactly its line ``const name = `value`;`` |
| `Bundler.DeclarationsSnoc` | core/bundler.ts:119 | one more argument appends a single `\n` and its line, so lines follow argument order |
| `Bundler.DeclarationsLines` | core/bundler.ts:119 | with no line break inside names or values, n arguments give exactly n-1 line breaks |
| `Bundler.HtmlExpressionParts` | core/bundler.ts:81-83 | the expression is the declarations, then `\n` and a backtick, then the fragment content, then a backtick and `;` |
| `Bundler.GreetingExpression` | core/bundler.ts:81-83 | a `name`=`World` child over fragment `Hello, ${name}!` gives the expression ``const name = `World`;`` + `\n` + the fragment as a template literal |
| `Bundler.TemplatePathSpec` | core/bundler.ts:64-69 | `src` keeps every character except that each `\` becomes `/`; the template path has no `%20`; and it is the plain concatenation when there is nothing to rewrite |
| `Bundler.LoadTemplateMissingSrc` | core/bundler.ts:64-68 | an element without `src` fails with the missing-`src` message for every file system and evaluator, so nothing is read or evaluated |
| `Bundler.LoadTemplateReadsOnlyTemplate` | core/bundler.ts:69-92 | the outcome depends only on the template file and on what `eval` does with that one expression |
| `Bundler.LoadTemplateFails` | core/bundler.ts:63-92 | an element's template is an error exactly when the element has no `src`, its template file cannot be read, or `eval` throws on its expression |
| `Bundler.ErrorMessagesEmpty` | core/bundler.ts:39-42 | the logged messages are empty exactly when every element resolved |
| `Bundler.Document.constructor` | core/bundler.ts:27-31 | the parsed document holds each `tmpl` element, in order, unresolved |
| `Bundler.Document.ReplaceWith` | core/bundler.ts:37 | only the replaced element's slot changes, and it becomes the fragment's HTML |
| `Bundler.Bundle` | core/bundler.ts:16-47 | fails exactly when the source is unreadable or unparsed or some element's outcome is an error; writes the document to the target path only when it did not fail; every element is attempted; an element is replaced exactly when it resolved; `errors` are the element error messages logged at core/bundler.ts:40, those of the failed elements in order (the `Could not read` message of core/bundler.ts:24 is not among them: there `errors` is empty) |
| `Bundler.ResolveElements` | core/bundler.ts:30-43 | the loop replaces each element whose template resolved by its HTML and leaves the others in place; it logs the messages of the failed ones in order, and the `failed` flag is set exactly when some message was logged |
| `Bundler.BundleFailsElement` | core/bundler.ts:22-44 | a bundle fails exactly when the source cannot be read or parsed, or some element's template does not resolve |
| `Bundler.BundleFailsCauses` | core/bundler.ts:21-92 | a bundle fails exactly when the source file cannot be read, or the parser returns no document, or some `tmpl` element has no `src`, names a template file that cannot be read, or makes `eval` throw; nothing else makes it fail |
| `Bundler.FailureIsolation` | core/bundler.ts:32-44 | with one element missing `src` and one that resolves, the bundle fails and logs only the missing-`src` message; the first outcome is an error and the second is the good element's HTML, so by `Bundle`'s contract the second element is still resolved |
| `StatusCodes.StatusCode.Code` | tmpl.ts:13-17 | Success, Failure and Pending are 0, 1 and 2 |
| `Tmpl.Find` | tmpl.ts:18 | `find` returns an argument matching the command, or none exactly when no argument matches |
| `Tmpl.CommandSpec` | tmpl.ts:18 | `command(cmd)` holds exactly when some string argument equals `cmd` ignoring case; numbers never match |
| `Tmpl.MapCommand` | tmpl.ts:23 | a status other than Pending is returned unchanged; Pending stays Pending when the command is absent; otherwise the command's status is returned |
| `Tmpl.MapCommandFirstWins` | tmpl.ts:23 | after one command has produced a final status, a later `mapCommand` keeps it |
| `Tmpl.ArgFiles` | tmpl.ts:32 | every kept argument exists and its lower-cased text ends with the lower-cased type; every such argument is kept |
| `Tmpl.ArgFilesAppend` | tmpl.ts:32 | filtering distributes over concatenation, so kept arguments keep their order |
| `Tmpl.ArgFilesSingle` | tmpl.ts:32 | one argument is kept exactly when it passes the test |
| `Tmpl.NumberNotHtml` | tmpl.ts:32 | a numeric argument never passes the `html` test |
| `Tmpl.HtmlArgFilesAreStrings` | tmpl.ts:32 | `argFiles('html')` keeps only strings |
| `Tmpl.HtmlFiles` | tmpl.ts:50 | `filesHTML` is the kept arguments, as strings, in order |
| `Tmpl.SplitAtLastSlash` | tmpl.ts:64-66 | for a file with `/`: directory = `currentDir` + text before the last `/` + `/`; the name is the text after it and has no `/`; prefix + `/` + name gives back the file |
| `Tmpl.SplitWithoutSlash` | tmpl.ts:83-85 | for a non-empty file without `/`, the computed directory drops the file's last character, then adds `/`, and the name is the whole file |
| `Tmpl.BareFileNameMisread` | tmpl.ts:84-85 | for every non-empty file without `/`, such as `index.html`, the computed directory and name give `currentDir`, the file without its last character, `/` and the file (`index.htm/index.html`), never `currentDir` followed by the file |
| `Tmpl.SourceDirectoryReconstructs` | tmpl.ts:64-66 | the intended directory followed by the name is always `currentDir` followed by the file |
| `Tmpl.FileNameHasNoSlash` | tmpl.ts:66 | the file name, the text after the last `/`, never contains `/` |
| `Tmpl.OutputNameSpec` | tmpl.ts:86 | the output name is the file name up to its last `.`, then the suffix; without a `.` the last character is dropped |
| `Tmpl.SettingsOf` | tmpl.ts:74-77 | `outDir` defaults to the empty string and the suffix to `.tmpl.html` |
| `Tmpl.WrittenSpec` | tmpl.ts:81-93 | a target is written exactly when some call with that target did not fail |
| `Tmpl.WrittenSnoc` | tmpl.ts:81-93 | one more call adds its target at the end when it did not fail, and nothing when it failed |
| `Tmpl.WrittenTargetsSpec` | tmpl.ts:82-91 | the paths a batch writes are exactly the targets of the calls that did not fail |
| `Tmpl.WrittenTargetsSingle` | tmpl.ts:70 | a single `--outF` call writes its target exactly when it does not fail |
| `Tmpl.BatchCallReadsFile` | tmpl.ts:83-90 | each batch call reads `cleanupPath(currentDir + file)` for its own normalized file, under the corrected source directory (see Findings) |
| `Tmpl.BundleOne` | tmpl.ts:90 | a call's status is Failure exactly when that bundle fails, and it writes its target exactly when it does not |
| `Tmpl.BundleEach` | tmpl.ts:81-93 | every file is attempted; the batch fails exactly when some call failed |
| `Tmpl.RunBatch` | tmpl.ts:72-94 | batch mode makes one call per file, in order, with the file's name, output name and directories (the source directory is the corrected one, see Findings); it fails exactly when some call failed |
| `Tmpl.RunStatus` | tmpl.ts:34-95 | the status `run` returns by its rules (help, no HTML file, `--outF` with one or more files, batch) is never Pending; the `--outF` and batch calls use the corrected source directory (see Findings) |
| `Tmpl.Run` | tmpl.ts:34-95 | the status is `RunStatus`, which is never Pending; help succeeds with no call; no HTML file fails with no call; `--outF` with more than one file fails with no call; a single `--outF` run has the status of its one call; a batch fails exactly when some call failed |
| `Tmpl.Invoke` | tmpl.ts:97-126 | `run` is dispatched through `mapCommand` exactly when the `run` command is given, and then the final status is the one `run` returns by its rules (`RunStatus`, with the corrected source directory, see Findings), never Pending; otherwise help or version give Success, and the status stays Pending exactly when none of the three was asked for |
| `JsString.ReplaceAllNoMatch` | core/bundler.ts:5 | `replaceAll` leaves a string without the pattern unchanged |
| `JsString.ReplaceCharAt` | core/bundler.ts:64 | replacing one character by another keeps the length and changes exactly the matching positions |
| `JsString.ReplaceCharRemoves` | tmpl.ts:64 | after replacing `\` by `/` no `\` is left |
| `JsString.OccurrencesZero` | core/bundler.ts:5 | the occurrence count is zero exactly when the pattern starts at no position |
| `JsString.RelativeIndex` | tmpl.ts:65 | the index `slice` uses lies in `[0, len]`: an index inside the string is kept, one past the end becomes `len`, a negative one counts from the end, and one before the start becomes 0 |
| `JsString.SlicePrefix` | tmpl.ts:65 | `slice(0, k)` is the prefix of length k; `slice(0, -1)` drops the last character |
| `JsString.SliceFromSuffix` | tmpl.ts:66 | `slice(k)` is the suffix from k |
| `JsString.LastIndexOfSpec` | tmpl.ts:65 | the result is an index holding the character with no later occurrence, and it is -1 exactly when the character does not occur |
| `JsString.ToLower` | tmpl.ts:18 | lower-casing keeps the length and maps each character |
| `JsString.JoinEnds` | core/bundler.ts:119 | a non-empty join starts with the first part and ends with the last |
| `JsString.JoinSnoc` | core/bundler.ts:119 | one more part adds one separator and that part at the end |
| `JsString.JoinCount` | core/bundler.ts:119 | with a one-character separator absent from the parts, n parts give exactly n-1 separators |
| `JsString.IntToString` | tmpl.ts:32 | the text of an integer is non-empty, uses only digits and `-`, and ends with a digit |

## Findings

| source | as written | input that shows it | evidently intended | confidence | as-written member | corrected member |
|---|---|---|---|---|---|---|
| tmpl.ts:65, tmpl.ts:84 | the source directory is the text before the last `/`, then `/`; without a `/`, `lastIndexOf` gives -1 and `slice(0, -1)` drops the file's last character | the argument `index.html` gives directory `currentDir + "index.htm/"`, so `Bundle` reads `currentDir + "index.htm/index.html"` | the directory is the text up to and including the last `/`, so a bare name is read from `currentDir` itself | high; not executed | `Tmpl.BareFileNameMisread` (on `Tmpl.FileDirectory`) | `Tmpl.SourceDirectoryReconstructs` (on `Tmpl.SourceDirectory`, used by `Tmpl.Run`) |

## Left out

- DOM parsing and serialization are inputs or left opaque. The model does not cover `DOMParser`, the `tmpl` tag query, `outerHTML ?? 'No Data'`, or re-parsing the produced HTML into nodes (`?? new HTMLDocument()`). A replaced element is kept as the HTML string it was replaced by.
- The live `tmpl` collection is not modelled. The loop attempts the elements found at parse time, once each. Whether deno_dom's collection skips an element or revisits `tmpl` elements inserted by a replacement depends on that library, which is not part of this model. So nested references are not resolved in the model.
- `eval` at core/bundler.ts:86 is an arbitrary function of the expression text. In the source it runs with `document`, the element and the local variables in scope; the model does not let its outcome depend on them. Template-literal syntax and variable scoping are not modelled.
- The missing-`src` message uses the element's index in the document text (core/bundler.ts:67). That index depends on the DOM, so the model keeps it as an opaque text field of the element.
- The file system is a fixed map. A file written by one `Bundle` call is not visible to later reads in the same batch. Write failures, which throw uncaught in the source, are not modelled.
- Flag parsing (`std/flags`) is left out. `--outF`, `--outDir` and `--outS` are optional strings, and values of other types are not modelled. Numeric positionals are integers only: the text of fractional numbers is not modelled.
- JsString.ToLower: only ASCII `A`-`Z` are mapped. JavaScript's full Unicode case mapping is not modelled.
- `currentDir` (tmpl.ts:11) is an input. Its derivation from `import.meta.url` is not modelled.
- Console output is not modelled: colours, log messages, help and version text, and the closing messages of `main`. The one exception is the element error messages of core/bundler.ts:40, which `Bundler.Bundle` returns as `errors`; the `Could not read` message of core/bundler.ts:24 is not modelled. `execute` (tmpl.ts:19-22) only logs and then calls the command, so it is folded into `Tmpl.MapCommand`.
- Tmpl.Run: uses the corrected source directory described under Findings. It differs from the source only for a file argument without `/`.
- Tmpl.RunStatus: decides on `SingleCall` and `BatchCalls`, which use the corrected source directory (Findings), not the `slice(0, lastIndexOf('/'))` + `/` of tmpl.ts:65 and :84. For a file argument without `/` the source's call reads a different path, so its status can differ.
- Tmpl.Invoke: its status when `run` is dispatched is `Tmpl.RunStatus`, so it carries the same correction of the source directory.
- Bundler.Bundle: the outcome of each element is computed before the replacement loop rather than in it. Loading reads the element and the environment; it reads the document only for the missing-`src` message, through `document.textContent.indexOf(element.textContent)` (core/bundler.ts:67). The model fixes that index at parse time as the element's `position` field, so it does not see a position that earlier replacements would shift.
- Tmpl.RunBatch: the per-file calls are computed before the loop rather than inside it. They are pure, so the calls made and their order are the same. Each call's source directory is the corrected one described under Findings, not the source's `slice(0, lastIndexOf('/'))` + `/` (tmpl.ts:84); the two differ only for a file argument without `/`.
- Tmpl.BatchCallReadsFile: states the file a batch call reads under the corrected source directory (Findings). For a file argument without `/`, the source as written reads a different path; `Tmpl.BareFileNameMisread` states that path.
- JsString.IntToString: gives the decimal digits of any integer. ECMAScript's `Number.prototype.toString` prints magnitudes of 10^21 and more in exponent form (`1e+21`), and numbers are doubles; neither is modelled.
