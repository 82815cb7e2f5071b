# cwbrest `RestSteps`, modelled in Dafny

`RestSteps` is a step library for HTTP acceptance scenarios. A scenario calls
an endpoint, keeps the response, and checks it in later steps: the status,
whether the body is empty, a list's size, key presence in a map body, a key's
value, and the number of entities in a nested collection under a qualifier
("at least", "at most", "more than", "less than"). A later call can put a value
from the previous body into its path with a `${response.<path>}` placeholder.
The path is read by the Spring expression language through a map-only
property accessor.

The model has these modules:

- `Values`: the body model (`Null | Bool | Int | Str | List | Map`) and the
  failure kinds. Each failure kind stands for one of the Java exceptions.
- `Http`: the verb enumeration, its case-insensitive parsing, and the request
  and response shapes.
- `PropertyAccess`: `MapAsPropertyAccessor`.
- `Expressions`: the dotted property chains that the steps evaluate. These
  are parsed into names and read one map key at a time.
- `Placeholder`: the regular expression `\$\{response.(.*)}` and the
  substitution done in `call`. The model includes the unescaped `.`, the
  greedy group, and the fact that `.` does not match a line terminator.
- `Assertions`: the assertion steps, written as pure functions of the stored
  response. They cannot change the store, so repeating one on the same store
  gives the same verdict.
- `Steps`: the `RestSteps` class. Its fields are `response` (`None` before the
  first call) and `headers`. Its methods set the headers from a table, `call`,
  and `callWithFile`. The HTTP exchange is a function parameter
  `Request -> Result<Exchange>`.

Two behaviours of the code are easy to miss, and the model keeps both:

- A placeholder whose value is an integer (`{"id": 7}`) does not resolve. The
  code casts the value to `String`, so the step fails
  (`Placeholder.ResolveIntegerIdFails`). Only a string value is substituted
  (`Placeholder.ResolveStringId`).
- With two placeholders in one path, the greedy group runs from the first
  placeholder to the last `}`. The group text then does not parse, so the step
  fails (`Placeholder.TwoPlaceholdersFail`).

Other points where the model is specific:

- The nested count step accepts a list only. A map value is not a Java
  `Collection`.
- The code distinguishes a wrong shape from a wrong value only by the message
  of an `AssertionError`. In the model, `ShapeMismatch` and `AssertionFailed`
  are labels for these two cases. The model's contracts constrain when a step
  passes, and the error kind only where the source fixes it (no response yet,
  argument errors, a missing header cell).

## Model

| member | source | states |
|---|---|---|
| `Http.ParseMethod` | src/main/java/com/jiglesias/cwb/steps/RestSteps.java:80 | a verb parses to the constant whose name is its upper-case form; when no constant has that name, the result is an argument error |
| `Http.ParseMethodCaseInsensitive` | src/main/java/com/jiglesias/cwb/steps/RestSteps.java:80 | a verb parses to `m` iff its upper-case form is `m`'s name; the upper-case and lower-case spellings of every constant both parse to it |
| `PropertyAccess.AccessorContract` | src/main/java/com/jiglesias/cwb/steps/RestSteps.java:235-259 | `canRead` holds iff the target is a map holding the key; `read` returns a value of that map unchanged; `canWrite` is false and `write` leaves the target as it was |
| `Expressions.SplitThenJoin` | src/main/java/com/jiglesias/cwb/steps/RestSteps.java:91 | splitting an expression at its dots and joining the pieces gives the expression back |
| `Expressions.JoinThenSplit` | src/main/java/com/jiglesias/cwb/steps/RestSteps.java:91 | joining dot-free names and splitting again gives the names back |
| `Expressions.Parse` | src/main/java/com/jiglesias/cwb/steps/RestSteps.java:91 | `parseRaw` succeeds iff every dot-separated piece is an identifier that is not an operator word (`lt`, `div`, ... in any case) and the first piece is not `new` or `T`; on success the names join back to the expression; otherwise the result is an evaluation error |
| `Expressions.ParseJoined` | src/main/java/com/jiglesias/cwb/steps/RestSteps.java:154 | a chain of property names, not headed by `new` or `T`, written with dots parses back to exactly those names |
| `Expressions.EvalSegmentsAppend` | src/main/java/com/jiglesias/cwb/steps/RestSteps.java:154 | evaluating `p.q` is evaluating `p`, then `q` on its value; a failure of `p` is the failure of the whole |
| `Expressions.EvalSegmentsReadsMapKeys` | src/main/java/com/jiglesias/cwb/steps/RestSteps.java:242-248 | a property chain evaluates iff its first name is a key of the target map and the rest evaluates on that key's value; any failure is an evaluation error |
| `Expressions.ReservedWordsDoNotParse` | src/main/java/com/jiglesias/cwb/steps/RestSteps.java:91 | a chain with an operator word in any position, or `new` or `T` first, fails to parse with an evaluation error |
| `Expressions.Evaluate` | src/main/java/com/jiglesias/cwb/steps/RestSteps.java:154 | an expression that does not parse is an evaluation error, as is every other failure; a chain not headed by a literal word is the chain of key reads from the root |
| `Expressions.EvaluateName` | src/main/java/com/jiglesias/cwb/steps/RestSteps.java:242-248 | a single property name that is not a keyword or literal word evaluates to what the accessor reads, or fails when it cannot read |
| `Expressions.EvaluateNested` | src/main/java/com/jiglesias/cwb/steps/RestSteps.java:154 | `a.b` evaluates to the value under `b` in the map under `a`; if either lookup is missing, it fails |
| `Expressions.EvaluateLiteralWord` | src/main/java/com/jiglesias/cwb/steps/RestSteps.java:154 | a leading `true`, `false` or `null` (any case) evaluates to that literal whatever the root holds, and reading a property of it fails |
| `Placeholder.MatchAt` | src/main/java/com/jiglesias/cwb/steps/RestSteps.java:87 | at a start index, the result is the furthest closing brace the pattern can reach; no result means the pattern cannot match there |
| `Placeholder.Find` | src/main/java/com/jiglesias/cwb/steps/RestSteps.java:88-89 | `find` reports a start where the pattern matches, with none further left; no report means there is no match anywhere |
| `Placeholder.FindIsLeftmostLongest` | src/main/java/com/jiglesias/cwb/steps/RestSteps.java:87-89 | the reported span is a match, no match starts to its left, and no longer match starts at its start; there is no report iff nothing matches |
| `Placeholder.FindAt` | src/main/java/com/jiglesias/cwb/steps/RestSteps.java:87-89 | a match with no `${response` to its left and no `}` to its right is the one reported |
| `Placeholder.Resolve` | src/main/java/com/jiglesias/cwb/steps/RestSteps.java:87-92 | without a match the path is unchanged; with one, a group that does not parse is an evaluation error; otherwise a missing previous response is a failure, and a non-string value is a failure; a string value replaces the whole matched span |
| `Placeholder.ResolveWithoutMarker` | src/main/java/com/jiglesias/cwb/steps/RestSteps.java:88-89 | a path in which `${response` never occurs is sent unchanged |
| `Placeholder.GreedyToLastBrace` | src/main/java/com/jiglesias/cwb/steps/RestSteps.java:87 | on a one-line path no `}` follows the replaced span |
| `Placeholder.OnePlaceholderSpan` | src/main/java/com/jiglesias/cwb/steps/RestSteps.java:87-90 | on `prefix${response.expr}suffix`, with no `$` in the prefix, no `}` in the suffix and no line break in `expr`, the match is the whole placeholder and the group is `expr` |
| `Placeholder.ResolveOnePlaceholder` | src/main/java/com/jiglesias/cwb/steps/RestSteps.java:87-92 | on such a path, resolution gives `prefix + text + suffix` when `expr` evaluates on the previous body to the string `text`; it fails on a parse error, with no previous response, or on a non-string value |
| `Placeholder.ResolveStringId` | src/main/java/com/jiglesias/cwb/steps/RestSteps.java:87-92 | with `{"id": "7"}` stored, `/items/${response.id}` becomes `/items/7` |
| `Placeholder.ResolveIntegerIdFails` | src/main/java/com/jiglesias/cwb/steps/RestSteps.java:91 | with `{"id": 7}` stored, the same path fails because the value is not a string |
| `Placeholder.ResolveWithoutResponseFails` | src/main/java/com/jiglesias/cwb/steps/RestSteps.java:91 | before any call, the same path fails for lack of a response |
| `Placeholder.ResolveLiteralWordFails` | src/main/java/com/jiglesias/cwb/steps/RestSteps.java:91 | `${response.true}` fails as a non-string on every stored body, even one with a key `true` |
| `Placeholder.ResolveOperatorWordFails` | src/main/java/com/jiglesias/cwb/steps/RestSteps.java:91 | `${response.lt}` fails to parse whatever was stored |
| `Placeholder.TwoPlaceholdersGroupFails` | src/main/java/com/jiglesias/cwb/steps/RestSteps.java:87-91 | the group `x}/b/${response.y` that two placeholders produce does not parse |
| `Placeholder.TwoPlaceholdersFail` | src/main/java/com/jiglesias/cwb/steps/RestSteps.java:87-91 | that path fails to resolve whatever was stored, because its group does not parse |
| `Assertions.ResponseStatusShouldBe` | src/main/java/com/jiglesias/cwb/steps/RestSteps.java:97-100 | passes iff there is a response and its status equals the expected one; before any call it fails for lack of a response |
| `Assertions.ResponseIsEmpty` | src/main/java/com/jiglesias/cwb/steps/RestSteps.java:209-212 | passes iff there is a response whose body is null |
| `Assertions.AssertResponseListSize` | src/main/java/com/jiglesias/cwb/steps/RestSteps.java:107-117 | passes iff the body is a non-null list of exactly the expected size |
| `Assertions.ResponseShouldContainEmptyArray` | src/main/java/com/jiglesias/cwb/steps/RestSteps.java:102-105 | passes iff the body is the empty list |
| `Assertions.AssertResponseIsMap` | src/main/java/com/jiglesias/cwb/steps/RestSteps.java:187-192 | succeeds iff the body is a non-null map, and returns that map |
| `Assertions.AssertResponseContainsOrNotKey` | src/main/java/com/jiglesias/cwb/steps/RestSteps.java:202-207 | succeeds iff the body is a map and the key is in it exactly when it should be, and returns that map |
| `Assertions.ResponseEntityShouldContain` | src/main/java/com/jiglesias/cwb/steps/RestSteps.java:119-122 | passes iff the body is a map holding the key (a key mapped to null counts) |
| `Assertions.ResponseEntityShouldNotContain` | src/main/java/com/jiglesias/cwb/steps/RestSteps.java:124-127 | passes iff the body is a map without the key; a null or non-map body fails |
| `Assertions.ResponseEntityShouldContainWithStringValue` | src/main/java/com/jiglesias/cwb/steps/RestSteps.java:129-133 | passes iff the body is a map whose value under the key is exactly that string |
| `Assertions.ResponseEntityShouldContainWithIntValue` | src/main/java/com/jiglesias/cwb/steps/RestSteps.java:135-139 | passes iff the body is a map whose value under the key is exactly that integer |
| `Assertions.ValueEqualityIsTyped` | src/main/java/com/jiglesias/cwb/steps/RestSteps.java:129-139 | a string literal never matches an integer field, and an integer literal never matches a string field; a null field matches neither, yet the plain contains step accepts it |
| `Assertions.ParseComparison` | src/main/java/com/jiglesias/cwb/steps/RestSteps.java:173-185 | each of the four phrases selects its own operator; no qualifier and any other text select equality |
| `Assertions.CompareCounts` | src/main/java/com/jiglesias/cwb/steps/RestSteps.java:173-185 | "at least" passes iff actual >= expected, "at most" iff <=, "more than" iff >, "less than" iff <, anything else or no qualifier iff equal |
| `Assertions.ResponseEntityContainEntities` | src/main/java/com/jiglesias/cwb/steps/RestSteps.java:141-149 | succeeds iff the body is a map, the key is present, its value is a list, and the list's length passes the comparison; returns that list |
| `Assertions.ResponseEntityContain` | src/main/java/com/jiglesias/cwb/steps/RestSteps.java:151-159 | succeeds iff the body is a map, the expression evaluates on it to a map, and the key's value there is present and non-null; returns that value |
| `Assertions.ResponseEntityContainKeyWithStringValue` | src/main/java/com/jiglesias/cwb/steps/RestSteps.java:161-165 | passes iff the nested lookup succeeds with exactly that string |
| `Assertions.ResponseEntityContainKeyWithIntValue` | src/main/java/com/jiglesias/cwb/steps/RestSteps.java:167-171 | passes iff the nested lookup succeeds with exactly that integer |
| `Assertions.NullValueContainedButNotFound` | src/main/java/com/jiglesias/cwb/steps/RestSteps.java:151-159 | a key mapped to null passes the top-level contains step but fails the nested lookup |
| `Assertions.ItemCountExamples` | src/main/java/com/jiglesias/cwb/steps/RestSteps.java:141-149 | with three items stored, "at least 2" passes, "more than 3" fails, and an unqualified count passes only for 3 |
| `Steps.HeadersFrom` | src/main/java/com/jiglesias/cwb/steps/RestSteps.java:71-72 | each header a table sets carries exactly one value |
| `Steps.HeadersFromLastRowWins` | src/main/java/com/jiglesias/cwb/steps/RestSteps.java:72 | a name is set iff some row names it, and its value is that of the last such row |
| `Steps.CompleteRowCount` | src/main/java/com/jiglesias/cwb/steps/RestSteps.java:72 | the fill gets through exactly the rows before the first one with fewer than two cells |
| `Steps.PrepareCall` | src/main/java/com/jiglesias/cwb/steps/RestSteps.java:79-93 | an unknown verb, or a GET with a non-null body, is an argument error; otherwise the request is built iff the path resolves, with the verb's upper-case constant, the resolved path, the stored headers and the body |
| `Steps.PrepareUpload` | src/main/java/com/jiglesias/cwb/steps/RestSteps.java:225-231 | succeeds iff the verb parses; the path is unchanged, the only header is the multipart content type, and the payload is the one named part with its resource; a GET is accepted |
| `Steps.UploadResource` | src/main/java/com/jiglesias/cwb/steps/RestSteps.java:220-223 | the word "null" gives a null resource; any other word gives empty bytes |
| `Steps.RestSteps.constructor` | src/main/java/com/jiglesias/cwb/steps/RestSteps.java:50-55 | a new instance has no response and no headers |
| `Steps.RestSteps.SetHeadersTo` | src/main/java/com/jiglesias/cwb/steps/RestSteps.java:69-73 | the headers become those of the rows before the first short row; the step passes iff every row is complete; the response is untouched |
| `Steps.RestSteps.Call` | src/main/java/com/jiglesias/cwb/steps/RestSteps.java:75-95 | a GET with a body fails and leaves the response alone; when the request cannot be built or the exchange fails, nothing is stored; otherwise the exchange's result becomes the response; the headers never change |
| `Steps.RestSteps.CallWithFile` | src/main/java/com/jiglesias/cwb/steps/RestSteps.java:225-233 | sends the upload request, stores the exchange's result on success, and leaves the response alone on failure; the stored headers are neither used nor changed |

## Left out

- Step annotations and their sentence patterns are not modelled. Neither are the wrappers `iCall`, `iCallWithData`, `iCallWithFileFrom`, `iCallWithFileNull`, `theResponseSizeIs` and the contains/not-contains forwarders. Each one only forwards to a modelled member: `RestSteps.Call` with body `Null` or the parsed body, `RestSteps.CallWithFile` with `FileResource(from)` or `UploadResource(kind)`, `AssertResponseListSize`, `AssertResponseContainsOrNotKey`.
- YAML parsing of inline bodies is a foreign library. The body arrives already parsed.
- `RestTemplate.exchange` is network I/O. It is the `transport` parameter. Its exceptions, such as the default error handler's reaction to 4xx/5xx and I/O errors, are its `Err` results.
- The response's headers are not modelled because no step reads them.
- The test-resource root directory is not modelled. `FileResource` keeps the name as given. A missing file surfaces only when the transport reads it.
- Multipart encoding is not modelled. How a null part is serialised is the transport's business.
- `Expressions.Parse` accepts only dot-separated property names. The rest of the Spring expression language is not modelled: indexing, method calls, operators, quoted and numeric literals, variables, whitespace between tokens. Such input is an evaluation error in the model even where Spring would accept it. The reserved words a dotted chain can hold are modelled: the operator words are rejected everywhere, `new` and `T` at the head are rejected, and a leading `true`, `false` or `null` is its literal. The words `and`, `or`, `matches`, `instanceof` and `between` are read as keys, as Spring does in a bare chain.
- `Expressions.EvalSegments` reads map keys only. Spring's default reflective accessor stays behind the map accessor and can read bean properties of a value when no map key matches, such as `class` or `empty` on a map without that key. The model does not have that fallback.
- `Placeholder.Resolve` inserts the value literally. `Matcher.replaceFirst` treats `$` and `\` in a replacement string specially, and the model assumes substituted values contain neither.
- `Http.ParseMethod` upper-cases ASCII letters only. Java's locale-sensitive Unicode upper-casing is not modelled, and the difference goes both ways. Java maps `ı` to `I` and `ſ` to `S`, so it accepts verbs such as `optıons` and `poſt` that the model rejects. Under a Turkish or Azerbaijani default locale, Java maps `i` to `İ`, so it rejects `options` while the model accepts it.
- Header names are case-sensitive map keys. `HttpHeaders` compares them case-insensitively.
- Cucumber table cells are assumed non-null.
- The initially null `headers` field is modelled as the empty map, which gives `HttpEntity` the same headers.
- The fields `bodyListMap` and `processInstanceId` are never used and are left out.
- `getSpecificTargetClasses` only registers the accessor for every target type. Its effect is covered by the accessor's lookup order described above.
- Floating-point numbers in bodies are not modelled. JSON integers are one unbounded integer kind. An `Integer` literal cannot equal a `Long` field, and the model agrees because a 32-bit literal can never equal an out-of-range value.
