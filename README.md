# marcus, modelled in Dafny

marcus runs HTTP API tests that are written as markdown. Each test file can start with a
`---` frontmatter block. That block gives a `root:` URL prefix and default `headers:`.
Every `## name` heading starts a test block, which holds:

- a request line (`GET /users`);
- option bullets: headers, `Wait until status is N`, `Retry N times every D`;
- an optional fenced `json` or `form` body, inline or as `FILE:` a path;
- an `Assert:` section of bullets: status, body contains, field equals, duration,
  body matches file, and body partially matches a marked code fence.

The runner parses every `.md` file under a path. It runs each test's request with
retries until its wait condition is met, and checks the test's assertions against the
response. It runs the tests one after another or as parallel jobs, and counts passes
and failures.

This project models the three core files of the Go program:

- `parser.go` becomes the modules `Frontmatter`, `Patterns`, `TestBlock`, `AssertionScan`
  and `Parser`. Each one pairs a reference function with the method that follows the
  Go loops.
- `http.go` becomes the modules `Interpolate`, `Json`, `Values`, `Transforms`, `Validate`
  and `Execute`.
- `runner.go` becomes the module `Runner`.

The supporting modules hold the rest:

- `Text` models the `strings` functions the code calls; its `TrimSpace` follows
  `unicode.IsSpace`.
- `Assoc` models Go maps as association lists with distinct keys.
- `Ordering` models the key order `fmt` uses when it prints a map.
- `Types` holds the records of `types.go`.

Everything the code does not compute itself is a field of `Types.Env`:

- the file system: `os.ReadFile`, `filepath.Join` and `filepath.Dir`;
- the parsers: `time.ParseDuration`, `strconv.ParseFloat`, `json.Unmarshal` of a body
  and of one partial-match line;
- the four base64 decoders, `url.Values.Encode` and `json.Marshal`;
- whether `http.NewRequest` accepts a method and URL.

Execution has two more inputs:

- the server is a function from a request and an attempt number to a response (a reply,
  a transport error or a read error);
- the clock is a `Clock` object that records every sleep.

`runTest` is a method over a mutable `VariableStore`. Its whole effect is tied to the
function `Execute.Run`, and the retry, save and failure properties are proved about that
function.

JSON values are `Json.Value`. A float is kept as the text that `%v` prints for it, so
loose equality (`valuesEqual`) compares renderings. `Values.BothFloatZero` adds the one
case where Go's `==` on two floats is true although their renderings differ: zero and
negative zero.

The scanners of `parser.go` are imperative methods:
- `ParseFrontmatter`, `ParseTestBlock`, `ParseAssertions` and `ParseTests`;
- with `FindClosing`, `ScanLine`, `CopyDefaults`, `FindMethodLine` and `ScanOptionLines`;
- and `MarkedLines`, `SkipPastFence` and `PartialBlock`.

Each of them is proved equal to a function. The lemmas state what the source promises
about those functions. The runner's job array, its per-slot writes and the path sort
are in-place methods on an `array`.

## Model

| member | source | states |
|---|---|---|
| Frontmatter.ParseFrontmatter | parser.go:46-119 | the loop computes exactly the frontmatter function: defaults and the text after the closing line |
| Frontmatter.Frontmatter | parser.go:46-119 | no leading `---`: empty defaults and the content unchanged; a leading `---` with no closing `---` line (or too few lines): empty defaults and the trimmed content; otherwise the text after the closing line, rejoined with newlines |
| Frontmatter.ClosingLine | parser.go:64-71 | the result is the first `---` line at or after `from`, and none means no line from there on is `---` |
| Frontmatter.FindClosing | parser.go:64-75 | the loop yields the index of the first closing `---` after line 0, or -1 when there is none |
| Frontmatter.ScanLine | parser.go:79-114 | one loop iteration is exactly one step of the scan over the root, the headers and the in-headers flag |
| Frontmatter.StepRoot | parser.go:88-94 | a `root:` line sets the root to its trimmed value without a trailing `/` and leaves the headers section; other lines keep the root |
| Frontmatter.RootWithoutRootLine | parser.go:88-91 | frontmatter with no `root:` line gives an empty root |
| Frontmatter.RootIsLastRootLine | parser.go:88-94 | the root is the value of the last `root:` line |
| Frontmatter.StepFlag | parser.go:96-113 | `headers:` enters the headers section; a non-blank line that is not indented leaves it; indented and blank lines keep the flag |
| Frontmatter.InSectionBefore | parser.go:96-113 | the recursive in-section predicate equals the closed form: some `headers:` line precedes, and every non-blank line since it is indented |
| Frontmatter.InHeadersExact | parser.go:78-113 | the scanner's flag before line `j` is exactly "inside a headers section" |
| Frontmatter.InHeadersCarry | parser.go:96-113 | a line that is blank or indented, and not `headers:`, does not change whether the next line is in the section |
| Frontmatter.InHeadersExtend | parser.go:96-113 | a blank or indented line keeps the section open |
| Frontmatter.InHeadersShrink | parser.go:96-113 | only a `headers:` line can open the section |
| Frontmatter.InHeadersBroken | parser.go:110-113 | a non-blank line that is not indented closes the section |
| Frontmatter.HeadersStep | parser.go:102-109 | one line adds at most one header, and the key stays distinct: an entry line in the section sets its key, other lines change nothing |
| Frontmatter.ScanHeaderMap | parser.go:102-109 | the scanned headers have distinct keys and equal the map reference of the entry lines |
| Frontmatter.HeaderMapHas | parser.go:102-109 | every header key comes from some entry line inside a headers section |
| Frontmatter.HeaderMapLacks | parser.go:102-109 | a key that is absent has no entry line in a headers section |
| Frontmatter.HeaderMapStep | parser.go:102-109 | a key is present after a line exactly when it was before or that line is its entry |
| Frontmatter.HeaderMapKeep | parser.go:102-109 | a line that is not an entry for a key keeps that key's value |
| Frontmatter.HeaderMapLast | parser.go:102-109 | the value of a key is that of its last entry line |
| Frontmatter.HeadersFromEntries | parser.go:102-113 | the default headers are exactly the keys of entry lines inside a headers section, each holding its last entry's value, with no key repeated |
| Patterns.LeadingVerb | parser.go:142 | the verb found is one of GET, POST, PUT, PATCH, DELETE and starts the line; none found means the line starts with none of them |
| Patterns.MatchMethodLine | parser.go:142-146 | a match gives a listed verb that starts the line and a non-empty target without regex spaces |
| Patterns.LeadingVerbOf | parser.go:142 | a line starting with a listed verb yields that verb |
| Patterns.MethodLineRoundTrip | parser.go:142-148 | verb, spaces, a target and then a space or the end yield exactly that verb and target |
| Patterns.SpaceRunAt | parser.go:142 | `\s+` spans exactly a run of regex spaces |
| Patterns.NonSpaceRunAt | parser.go:142 | `\S+` spans exactly a run of non-spaces |
| Patterns.BulletWord | parser.go:175-176 | a case-insensitive bullet literal ends inside the line |
| Patterns.MatchWait | parser.go:175 | a wait bullet yields a non-empty digit string |
| Patterns.MatchRetry | parser.go:176 | a retry bullet yields a non-empty digit count and a non-empty delay on one line |
| Patterns.HeaderRoundTrip | parser.go:174 | `- name: value` yields that name and that value, trimmed |
| Patterns.HeaderMatchShape | parser.go:174 | the header name ends at the first colon, and the value is the rest after the spaces |
| Patterns.HeaderValueTail | parser.go:174 | `\s*(.+)` leaves a value that is the rest of the line with the same trimmed text |
| Patterns.Quoted | parser.go:294 | a backquoted group ends at the first backquote after its start |
| Patterns.MatchBodyContains | parser.go:294 | the field found is non-empty and holds no backquote |
| Patterns.MatchFieldEquals | parser.go:304 | both captures are non-empty and hold no backquote |
| Patterns.MatchDuration | parser.go:315 | the duration text is non-empty and on one line |
| Patterns.MatchBodyMatchesFile | parser.go:325 | the path found is non-empty and holds no backquote |
| Patterns.QuotedRoundTrip | parser.go:294 | text followed by a backquote is captured exactly |
| Patterns.BodyContainsRoundTrip | parser.go:294-299 | ``Body contains `f` `` yields f |
| Patterns.FieldEqualsRoundTrip | parser.go:304-310 | ``Field `f` equals `v` `` yields (f, v) |
| Patterns.FieldEqualsParts | parser.go:304 | the two groups of a field-equals bullet close where the field and the value end |
| Patterns.DurationRoundTrip | parser.go:315-320 | both `Duration less than v` and `Time less than v` yield v |
| Patterns.BodyMatchesFileRoundTrip | parser.go:325-327 | ``Body matches file `p` `` yields p |
| Patterns.LastBreak | parser.go:217 | the lazy `(.+?)` body ends at the first fence after the last newline of the `\s*` run |
| Patterns.FenceTail | parser.go:217 | the body starts after whitespace that holds a newline, and is closed by a fence |
| Patterns.FindBodyFence | parser.go:217-220 | the first json or form fence found has a non-empty body |
| Patterns.BodyFenceRoundTrip | parser.go:217-220 | a json fence around a body with no inner fence yields that body |
| Patterns.FenceBodyOnce | parser.go:217 | a body with no fence inside is closed by the fence after it |
| Patterns.MatchPartialFence | parser.go:344-346 | a partial-match fence has a non-empty body |
| Patterns.LastLineEnd | parser.go:261 | `\s*$` ends at a line end inside the whitespace |
| Patterns.AssertHeaderAt | parser.go:261 | an `Assert:` or `Asserts:` line ends after its colon |
| Patterns.FindAssertHeader | parser.go:261-262 | the end of the first assertions header lies within the text |
| Patterns.AssertHeaderRoundTrip | parser.go:261-268 | `Assert:` on the first line starts the section right after the colon |
| Patterns.LineEnd | parser.go:21 | the end of a line is the next newline or the end of the text |
| Patterns.PlacedWell | parser.go:21-22 | headings that are placed one by one are well placed: each is a heading line and each ends before the next starts |
| Patterns.HeadingsWellPlaced | parser.go:21-22 | the headings found are heading lines in order, not overlapping |
| Patterns.HeadingsPlaced | parser.go:21-22 | the heading search places every heading after the previous one |
| Patterns.HeadingsComplete | parser.go:21-22 | every `## name` line at a line start is among the headings found |
| Types.ResolvePath | parser.go:226-228 | an absolute path is kept as it is |
| TestBlock.ResolveURL | parser.go:150-161 | a root and a `/` path give root+path; an absolute http(s) URL or no root gives the target; otherwise root + `/` + target |
| TestBlock.ResolveURLSuffix | parser.go:150-161 | the resolved URL always ends with the target |
| TestBlock.FirstMethodLine | parser.go:145-166 | the result is the first line that matches the request pattern, and none means no line matches |
| TestBlock.ClassifyOption | parser.go:203-207 | a header option has a trimmed name and a trimmed value |
| TestBlock.OptionsFrom | parser.go:178-214 | the options read are at most the remaining lines, and none of them ends the options |
| TestBlock.WithBodyHeaders | parser.go:216-247 | the body fence changes neither headers, URL, verb nor name, and sets the content type from the fence kind only when none is set |
| TestBlock.CopyDefaults | parser.go:130-136 | the loop sets every default header in order |
| TestBlock.FindMethodLine | parser.go:142-166 | the loop finds the first request line |
| TestBlock.ScanOptionLines | parser.go:172-214 | the loop applies the option lines up to the first line that is not an option |
| TestBlock.ParseTestBlock | parser.go:123-253 | the method computes exactly the block-test function |
| TestBlock.UrlUntouched | parser.go:130-136 | setting headers leaves the URL alone |
| TestBlock.SetAllMap | parser.go:131-133 | setting headers over distinct ones keeps them distinct and gives the old map updated by the new |
| TestBlock.SetAllContentType | parser.go:131-136 | after setting headers the content type is that of the last `Content-Type` among them, compared ignoring case |
| TestBlock.LastContentTypeCons | parser.go:133-135 | the last content type of a list is that of its tail, starting from its head's |
| TestBlock.LastContentTypeAppend | parser.go:131-136 | the last content type of two lists is that of the second, starting from the first's |
| TestBlock.LastContentTypeIs | parser.go:131-136 | the last `Content-Type` header, in any case, gives the content type |
| TestBlock.SetAllKeeps | parser.go:130-136 | setting headers changes only the headers and the content type |
| TestBlock.SetAllOnly | parser.go:130-136 | headers and content type after setting depend only on those before |
| TestBlock.ApplyAllHeaders | parser.go:203-210 | applying the options sets exactly their header lines, in order |
| TestBlock.ApplyAllCons | parser.go:178-214 | the options apply one at a time |
| TestBlock.SetAllCons | parser.go:131-136 | the headers are set one at a time |
| TestBlock.ApplyOptionNotHeader | parser.go:185-200 | a wait or retry option changes neither headers nor content type |
| TestBlock.ScanOptionHeaders | parser.go:178-214 | scanning options sets exactly the header bullets, in order |
| TestBlock.ApplyAllKeeps | parser.go:178-214 | options change neither name, verb, URL, body nor assertions |
| TestBlock.ScanStopsAt | parser.go:211-213 | nothing after the first line that is not an option is read |
| TestBlock.BlockUrl | parser.go:145-170 | a test has a URL exactly when its block has a request line, and then it has that line's verb and resolved target; its name is the heading's |
| TestBlock.RequestHeaderMap | parser.go:130-210 | the headers are the defaults with the header bullets over them, later ones winning |
| TestBlock.DefaultsMap | parser.go:130-136 | the defaults copied into a new test are the defaults' map, with distinct keys |
| TestBlock.RequestContentType | parser.go:130-210 | the content type is that of the last `Content-Type` among the defaults and the bullets |
| TestBlock.BlockHeaders | parser.go:130-214 | a parsed test's header map is the defaults overridden by its header bullets |
| TestBlock.BlockContentType | parser.go:130-246 | the content type is the last `Content-Type` among defaults and bullets; only when there is none does a json or form fence give its type |
| TestBlock.BlockTestIs | parser.go:123-253 | a block with a request line is its request test, then its body fence, then its assertions |
| TestBlock.FinishedFields | parser.go:216-250 | once the body and assertions are read, the headers are unchanged and the content type comes from the fence only when none was set |
| TestBlock.BulletNotBlank | parser.go:180-182 | a bullet is never skipped as blank |
| TestBlock.OptionPrecedence | parser.go:178-213 | blank lines are skipped; a wait bullet wins over a retry bullet, and both win over a header; a line none of them matches ends the options |
| TestBlock.RetryBadDelay | parser.go:192-199 | a retry bullet with an unparsable delay sets only the count |
| TestBlock.BlockBodyIsFence | parser.go:216-247 | the body is empty with no request line or no fence, and otherwise is the fence's body (read from a file for `FILE:`) |
| TestBlock.FileBody | parser.go:222-234 | a `FILE:` body is the file's contents when the file can be read, and otherwise stays as written |
| AssertionScan.ClassifyBullet | parser.go:283-341 | a recognised bullet is a well-formed assertion other than a partial match; the partial marker is exact |
| AssertionScan.MarkedLines | parser.go:348-358 | the loop collects exactly the marked lines |
| AssertionScan.MarkedShape | parser.go:348-358 | no more marked lines than lines, none empty, and none without `>>` |
| AssertionScan.FenceLine | parser.go:366-376 | the first line holding a fence from `from` on |
| AssertionScan.SkipFence | parser.go:365-377 | scanning resumes at or after the current line |
| AssertionScan.SkipPastFence | parser.go:365-377 | the nested loops end on the closing fence line |
| AssertionScan.PartialResult | parser.go:341-380 | a partial match resumes within the lines |
| AssertionScan.BulletStep | parser.go:272-381 | one line yields at most one assertion and moves forward |
| AssertionScan.BulletOf | parser.go:283-380 | one classified bullet yields at most one assertion and moves forward |
| AssertionScan.ScanBlank | parser.go:273-276 | blank lines are skipped |
| AssertionScan.ScanBullet | parser.go:277-337 | a bullet that reads as an assertion adds it, then the scan goes on |
| AssertionScan.PartialBlock | parser.go:341-380 | the partial-match handling computes exactly its function |
| AssertionScan.ScanLine | parser.go:272-381 | one loop iteration is exactly one scan step |
| AssertionScan.ScanBulletLine | parser.go:283-380 | one bullet's handling is exactly its step |
| AssertionScan.ParseAssertions | parser.go:257-384 | the method computes exactly the assertions function |
| AssertionScan.StepWellFormed | parser.go:283-364 | every assertion one step yields is well formed |
| AssertionScan.ScanShape | parser.go:270-381 | no more assertions than lines, and all are well formed |
| AssertionScan.ClassifyText | parser.go:283-337 | the printed text of a printable assertion reads back as that assertion |
| AssertionScan.ClassifyStatus | parser.go:284-290 | `Status is v` is a status assertion of v |
| AssertionScan.ClassifyBodyContains | parser.go:294-300 | ``Body contains `f` `` is a body-contains assertion on f |
| AssertionScan.ClassifyFieldEquals | parser.go:304-311 | ``Field `f` equals `v` `` is a field-equals assertion |
| AssertionScan.ClassifyDuration | parser.go:315-321 | `Duration less than v` is a duration assertion of v |
| AssertionScan.ClassifyBodyMatchesFile | parser.go:325-336 | ``Body matches file `p` `` with an absolute p keeps that path |
| AssertionScan.BulletLineShape | parser.go:273-281 | a printed bullet is trimmed, on one line, and starts with `- ` |
| AssertionScan.TextEnds | parser.go:273 | a printed assertion ends in a non-space character |
| AssertionScan.PrintedReadsAs | parser.go:272-337 | a printed bullet reads back as its assertion |
| AssertionScan.ScanPrinted | parser.go:270-381 | lines that each read as an assertion scan to exactly those assertions |
| AssertionScan.AssertSectionRoundTrip | parser.go:257-384 | an `Assert:` section of printed bullets parses back to exactly the assertions printed |
| AssertionScan.SectionRoundTrip | parser.go:257-384 | a section of bullets that each read as an assertion parses to those assertions |
| AssertionScan.PrintedLinesReadAs | parser.go:272-337 | every printed line reads as its assertion |
| AssertionScan.BulletsShape | parser.go:270-281 | bullets are on one line and the first starts with a non-space |
| AssertionScan.SectionLines | parser.go:261-271 | the section's lines are an empty line then the bullets |
| AssertionScan.Printed | parser.go:272-281 | one printed bullet per assertion |
| Parser.NameOf | parser.go:25-26 | the test name is the non-empty rest of the heading line |
| Parser.ParseTests | parser.go:14-43 | the loop computes exactly the tests function |
| Parser.ReadBlock | parser.go:25-36 | the test read at a heading is the test of that heading's name and block text |
| Parser.KeepStep | parser.go:37-39 | appending an element exactly when its flag is set extends the kept prefix by one position |
| Parser.KeptIffRequest | parser.go:36-39 | a block's test has a URL exactly when the block has a request line |
| Parser.Trues | parser.go:37-39 | the kept positions are within the blocks |
| Parser.TruesExactly | parser.go:37-39 | the kept positions increase and are exactly the blocks with a request line |
| Parser.KeepIfAt | parser.go:37-39 | the kept tests are the tests at the kept positions |
| Parser.RequestFlags | parser.go:24-40 | one flag per heading |
| Parser.AllTests | parser.go:24-40 | one test per heading |
| Parser.BlockTestsKeep | parser.go:24-40 | the loop's tests are the tests of the first blocks that have a URL |
| Parser.TestsOfKeep | parser.go:14-43 | the tests are those of the headed blocks of the text after the frontmatter that have a URL |
| Parser.TestsPerHeading | parser.go:21-40 | one test per `## name` block with a request line, in document order, from its heading and block text, and no other |
| Parser.TestAtName | parser.go:25-36 | each test is named by the rest of its heading line |
| Parser.HeadingsAreHeadingLines | parser.go:21-22 | every `## name` line after the frontmatter heads a block |
| Interpolate.Placeholder | http.go:23 | the placeholder is the name with two braces on each side |
| Interpolate.InterpolateVariables | http.go:17-27 | the loop substitutes every stored name in store order |
| Interpolate.NoPlaceholderUnchanged | http.go:17-25 | text with no placeholder of a stored name is unchanged, and an empty or nil store changes nothing |
| Interpolate.SingleSubstitution | http.go:22-24 | every occurrence of a variable's placeholder is replaced by the `%v` text of its value, the text before the first one kept |
| Interpolate.TemplateSubstitution | http.go:21-25 | for any number of stored variables, each placeholder of a stored name becomes its value's `%v` text and every other placeholder and all literal text stay, when names and rendered values hold no braces |
| Json.GetJSONField | http.go:355-373 | the loop is the walk of the dotted path from the top object |
| Json.WalkAppend | http.go:359-370 | walking two paths is walking one, then the other from what it reached |
| Json.NonObjectStops | http.go:367-368 | reaching a non-object before the path ends fails at the next segment |
| Json.WalkNest | http.go:359-372 | a path through nested objects reaches its leaf |
| Json.GetFieldNest | http.go:355-373 | a dotted path of segments without dots reaches the leaf of the objects it names |
| Values.ExpectedQuoted | http.go:378-380 | a quoted literal is the string inside the quotes |
| Values.ExpectedBool | http.go:383-388 | `true` and `false` are booleans |
| Values.ExpectedInt | http.go:391-393 | the decimal text of a 64-bit integer is that integer |
| Values.QuotedIntIsString | http.go:378-380 | a quoted number stays a string |
| Values.ExpectedFallback | http.go:376-399 | text that is no quoted string, boolean, integer or float stays a string |
| Values.ValuesEqualNotTransitive | http.go:403-414 | loose equality is not transitive: 0 equals -0 and -0 equals "-0", but 0 does not equal "-0" |
| Values.ValuesEqualExamples | http.go:403-414 | 42 equals 42.0 and "42", true equals "true", "test" does not equal "other" |
| Values.IntMatches | http.go:391-414 | against an integer literal, a field matches exactly when it prints as that integer |
| Values.AsWrittenPanics | http.go:405 | the code's `==` on two objects or two arrays does not give a result |
| Values.AsWrittenAgrees | http.go:403-414 | when the operands are not both objects and not both arrays, the code gives the loose equality |
| Values.AsWrittenReflexive | http.go:405 | a value compared with itself is true, except that an object or an array does not give a result |
| Values.LiteralNeverPanics | http.go:376-400 | a parsed assertion literal is never an object or an array, so field-equals never reaches the panic |
| Transforms.NonEmptyTrimmed | http.go:310-315 | no more transform names than pieces |
| Transforms.SplitFieldTransforms | http.go:306-317 | the loop returns the trimmed path and the non-empty trimmed transform names |
| Transforms.NonEmptyTrimmedClean | http.go:310-315 | names that are already trimmed and non-empty are kept as they are |
| Transforms.NonEmptyTrimmedShape | http.go:310-315 | every transform name is non-empty and trimmed |
| Transforms.SplitJoinTransforms | http.go:306-317 | a path and transform names joined with `\|` split back to the same path and names |
| Transforms.NoPipeNoTransforms | http.go:306-317 | a field without `\|` is the trimmed path with no transforms |
| Transforms.FirstDecode | http.go:327-336 | the first decoder that accepts the value gives the result, and none means every decoder rejects it |
| Transforms.ApplyTransforms | http.go:321-346 | the loop applies the transforms in order and stops at the first error |
| Transforms.UnknownFails | http.go:341-342 | an unknown transform name fails |
| Transforms.TransformedAppend | http.go:323-344 | applying two lists is applying the first, then the second to its result |
| Transforms.Base64Order | http.go:326-339 | base64 fails exactly when all four decoders fail, and otherwise gives the first that succeeds, in the order standard, URL-safe, raw standard, raw URL-safe |
| Validate.Preview | http.go:175-178 | a body of at most 500 characters is shown whole; a longer one is cut to 500 and `...` is added |
| Validate.FieldsAsWrittenAgrees | http.go:289-297 | when no field compares two objects or two arrays, the code's field check equals the corrected one |
| Validate.PartialObjectPanics | http.go:289-297 | the line `"a": {"b": 1}` against `{"a":{"b":1}}` panics in the code and passes in the corrected check |
| Validate.CheckFields | http.go:289-297 | the loop gives the first field that is missing or differs |
| Validate.CheckLine | http.go:273-297 | one line is skipped when blank, fails when it is not JSON, and otherwise checks its fields |
| Validate.PartialMatch | http.go:272-298 | the loop gives the first failing line |
| Validate.ValidateBodyContains | http.go:185-206 | the method computes exactly the body-contains check |
| Validate.ValidateFieldEquals | http.go:208-232 | the method computes exactly the field-equals check |
| Validate.ValidateAssertion | http.go:166-302 | the switch computes exactly the validation function |
| Validate.StatusHolds | http.go:168-183 | a status assertion holds exactly when its value parses to the status; otherwise the failure carries the expected status, the actual status and the preview |
| Validate.NeedsJsonObject | http.go:186-268 | body-contains, field-equals and partial match fail when the body is not a JSON object |
| Validate.BodyContainsTopLevel | http.go:202-205 | without transforms, body-contains holds exactly when the trimmed field is a top-level key |
| Validate.BodyContainsDotted | http.go:202-205 | without transforms a dotted path is looked up as one top-level key, so a nested field is reported missing |
| Validate.TransformedPathFound | http.go:190-194 | with transforms, a path that leads to a value is not reported missing |
| Validate.BodyContainsDottedTransformed | http.go:189-201 | with a transform the dotted path is followed through nested objects |
| Validate.FieldEqualsHolds | http.go:212-231 | without transforms, field-equals holds exactly when the path leads to a value that loosely equals the literal |
| Validate.DurationHolds | http.go:234-241 | a duration assertion holds exactly when the limit parses and the response took no longer |
| Validate.FirstSomeIsFirst | http.go:272-298 | the first failure is the first line that fails, and none means every line holds |
| Validate.LineResults | http.go:272-298 | one result per line |
| Validate.LinesFailureIsFirst | http.go:272-298 | the partial match reports the first failing line |
| Validate.LinesAllHold | http.go:272-298 | a partial match holds exactly when every line holds, and otherwise reports the first failing line |
| Validate.FieldsAllHold | http.go:289-297 | a parsed line holds exactly when each of its fields is found and loosely equal |
| Validate.BlankLineHolds | http.go:273-276 | blank lines of a partial match are skipped |
| Execute.Decide | http.go:114-150 | an attempt is retried only below the retry limit |
| Execute.Sleeps | http.go:121-140 | n sleeps, each of the retry delay |
| Execute.VariableStore.constructor | http.go:32-34 | a new store is empty |
| Execute.Clock.Sleep | http.go:121 | a sleep is recorded |
| Execute.BuildForm | http.go:56-67 | the loop builds the form fields of the body's lines |
| Execute.InterpolateHeaders | http.go:39-41 | every header value is interpolated |
| Execute.PrepareTest | http.go:32-71 | the prepared test: URL, body and header values interpolated, retry delay 1s and retry count 10 when unset, and the body content |
| Execute.ValidateAll | http.go:145-150 | the loop reports the first failing assertion |
| Execute.DecideAttempt | http.go:114-150 | the method computes exactly what one attempt decides |
| Execute.SaveFields | http.go:152-159 | the saves update the store in order and stop at the first missing field |
| Execute.Finish | http.go:152-161 | the saves' error becomes the test's |
| Execute.RunAttempts | http.go:77-162 | the attempt loop's store and error are those of the run function, and it sleeps once per retry |
| Execute.Attempt | http.go:78-143 | a retried attempt sleeps the delay and leaves the store; a final attempt ends the run |
| Execute.RunTest | http.go:31-163 | a nil store is replaced by a new one; the store's new variables and the error are those of the run, with one sleep per retry |
| Execute.AttemptsBounded | http.go:77-123 | attempts are counted from the first and go past it only up to the retry limit |
| Execute.RunAttemptsBounded | http.go:47-123 | runTest makes at least one attempt and no more than the retry limit, which is 10 by default |
| Execute.RetryExactly | http.go:116-143 | an attempt is retried exactly when it got a response, a wait condition is unmet and the limit is not reached |
| Execute.WaitExhausted | http.go:117-139 | at the limit an unmet wait fails with the status, or with the field's absence or value, and the attempt count |
| Execute.PassNeedsEverything | http.go:101-150 | going on to the saves needs a response, both wait conditions met and every assertion holding |
| Execute.AssertionsFailFast | http.go:145-150 | the assertions are checked in order and the first failure is reported |
| Execute.TransportErrorNoRetry | http.go:101-104 | a transport error ends the test at the first attempt, whatever its wait conditions |
| Execute.NoSavesOnFailure | http.go:86-150 | a test that fails before its saves leaves the variables as they were |
| Execute.EndsOnPass | http.go:145-161 | a run that passes, or fails in its saves, ended on an attempt whose decision was to save, and its store is that of the saves |
| Execute.SaveAllAppend | http.go:153-159 | saving two lists in turn is saving them as one, stopping at the first failure |
| Execute.EarlierSavesKept | http.go:153-158 | when save k fails, the error is its lookup's and the earlier saves stay saved |
| Execute.SaveAllDistinct | http.go:158 | the variable names stay distinct |
| Execute.SaveKeepsOthers | http.go:153-159 | a variable that no save writes keeps its value |
| Execute.SavedLastWins | http.go:153-159 | a variable holds the value of the last save that writes it |
| Execute.ContentTypeSent | http.go:92-97 | a content type goes over a header spelled exactly `Content-Type`; none leaves the test's headers |
| Runner.FileJobs | runner.go:84-91 | one job per test in the file |
| Runner.BuildJobs | runner.go:82-92 | the loop builds the jobs of all files in order |
| Runner.JobsLayout | runner.go:82-92 | one job per test, each with its file's path and index and its own test index |
| Runner.EveryTestHasJob | runner.go:82-92 | test ti of file fi is the job after the tests of the earlier files |
| Runner.Passed | runner.go:43-52 | no more passes than jobs |
| Runner.RunTestsSequential | runner.go:33-66 | every test of every file runs in order; the passes are counted and the rest fail |
| Runner.RunFile | runner.go:43-52 | every test of one file runs in order |
| Runner.PassedAppend | runner.go:43-52 | the passes add up over files |
| Runner.RunJobs | runner.go:95-118 | one result per job, in the job's own slot |
| Runner.WriteSlot | runner.go:107-114 | a goroutine writes only its own slot |
| Runner.FileDurations | runner.go:121-126 | the loop computes the largest duration per file |
| Runner.PassedResults | runner.go:142-150 | no more passes than results |
| Runner.Report | runner.go:128-151 | the results are counted in job order |
| Runner.RunTestsParallel | runner.go:69-162 | one result per job in job order, the pass and fail counts, and the largest duration per file |
| Runner.SameCounts | runner.go:43-150 | parallel and sequential runs count the same passes |
| Runner.MaxDurationIsMax | runner.go:121-126 | every result's duration is at most its file's, and each non-zero file duration is that of one of its results |
| Runner.VisitEntry | runner.go:175-190 | one walk entry is handled exactly as the walk function does |
| Runner.WalkFiles | runner.go:175-194 | the walk gathers the test files of the entries in walk order, and stops at the first error |
| Runner.SortByPath | runner.go:196-198 | the files end sorted by path, as a permutation of those gathered |
| Runner.InsertLast | runner.go:196-198 | inserting one file keeps the prefix sorted and the files the same |
| Runner.Swap | runner.go:196-198 | a swap exchanges two files and keeps the rest |
| Runner.CollectTestFiles | runner.go:165-213 | a failed stat fails; a file is parsed on its own; a directory succeeds exactly when the walk does, and gives the walked files sorted by path, as a permutation |
| Runner.GatherGood | runner.go:175-191 | every file gathered is a visited `.md` entry that can be read and has tests, with those tests |
| Runner.CollectedFilesGood | runner.go:175-198 | every file collected from a directory is a visited `.md` entry that can be read and has tests, with those tests |
| Runner.GatherKeeps | runner.go:186-188 | a file once kept stays kept |
| Runner.GatherFinds | runner.go:179-188 | a walk that succeeds read every `.md` entry it visited, and kept each one that has tests |
| Runner.CollectedFilesComplete | runner.go:175-198 | collecting a directory that succeeds returns every visited `.md` file that has tests, with those tests |

## Left out

- Interpolated: Go iterates the store in random order. The model substitutes in list order, so a stored value holding another placeholder has no fixed result in Go.
- LastContentType: Go copies the default headers in map order. The model fixes list order, so with several case variants of `Content-Type` it picks the last in the list, where Go picks any.
- LineFailure: `env.parseFragment` returns a line's fields in one fixed order. Go walks the unmarshalled map in random order, so which failing field is reported is random in Go.
- LineFailure / CheckPartial: the model compares partial-match fields with the corrected ValuesEqual. The code panics at `http.go:405` when both values are objects or both are arrays (LineFailureAsWritten, PartialObjectPanics); Validation and Execute.Run inherit the corrected comparison.
- TemplateSubstitution: the all-variables statement assumes that no name and no rendered value holds a brace. Otherwise one substitution can assemble a new placeholder for a later one, and the result depends on the store order.
- RequestHeaders: `req.Header.Set` canonicalises header names, so Go sends `content-type` and `Content-Type` as one header. The model keeps them as two keys, and ContentTypeSent holds only for the exact spelling `Content-Type`.
- Preview: Go cuts the body at 500 bytes. The model cuts at 500 characters, because strings are sequences of code points.
- Prepare: Go rewrites `test.Headers` in place, and that map is shared with the caller's test. The model returns a new test, so the aliasing is lost.
- IsAbs: only Unix paths (a leading `/`) are absolute. Windows volume names are not modelled.
- Value: a JSON float is held as the text `%v` prints for it, not as a float64. The only float comparison modelled is that zero equals negative zero (BothFloatZero).
- Runner.RunTestsSequential: a test's run is a given function `runs` from file index and test index to a result. It has no link to Execute.RunTest, because `runner.go:44` and `runner.go:106` call a one-argument `runTest`, which does not match `http.go:31`. So no variable store is threaded between the tests of a file.
- WaitForField: no parser rule sets it at `parser.go:172-214`, so only tests built by hand wait for a field.
- SaveFields: `types.go` has no `SaveFields` field and the parser has no save section, yet `http.go:153` reads `test.SaveFields`. The model keeps the field; parsing a `Save:` section is not part of this model.
- Printing: the colours, console lines and `formatDuration` are left out. So are the per-file and total durations taken from the clock.
- Concurrency: goroutines, the wait group and the CPU-sized semaphore are left out. The jobs run one after another, and each writes only its own slot (WriteSlot).
- Time: the clock records the sleeps between attempts. Request durations come with the server's replies.
- Transport errors: `http.go:101-104` returns at once, even when the test waits for a status (TransportErrorNoRetry).
- Save failures: `http.go:158` stores each value before the next lookup, so a failing save keeps the earlier ones (EarlierSavesKept).
- The file system: `os.Stat` is an `Option<bool>` (error, or is-a-directory). `filepath.Walk` is a given sequence of entries in walk order. File contents come from `env.readFile`.
- SortByPath: `sort.Slice` is not stable and its result order for equal paths is not given. The model proves only sorted-by-path and a permutation, using its own insertion sort.
- Parsers and encoders: `time.ParseDuration`, `strconv.ParseFloat`, `json.Unmarshal`, `json.Marshal`, base64 decoding, `url.Values.Encode`, `filepath.Join` and `filepath.Dir` are oracles in `Env`.
- Request: `http.NewRequest` is the oracle `requestOk`. A read error of the body is a kind of server response.
- Regular expressions: each pattern is a hand-written matcher over characters. `(?i)` folding covers ASCII and the two Unicode letters that fold to `s` and `k`.

## Findings

| source | as written | input that shows it | evidently intended | confidence | as-written member | corrected member |
|---|---|---|---|---|---|---|
| http.go:289-297 | partial match calls `valuesEqual`, whose `actual == expected` (http.go:405) panics at run time when both values are JSON objects or both are arrays | response `{"a":{"b":1}}` with a `Body partially matches:` fence line `>> "a": {"b": 1}` | the nested values are compared loosely, like every other value, and the line passes | not executed | Validate.PartialObjectPanics | Validate.FieldsAllHold |
