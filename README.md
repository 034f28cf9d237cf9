# mcp-server-flomo, modelled in Dafny

`mcp-server-flomo` is an MCP (Model Context Protocol) server with one tool, `write_note`.
The tool forwards a note to a flomo webhook URL and reports where the new memo can be viewed.
This project models the decision logic of `src/index.ts`:

- **Command-line parsing** (`args.dfy`, module `Args`). `parseArgs` is a method with a loop over
  the user arguments. It is proved equal to the fold `FlagsOf`. For an argument `--k=v`, the key is
  the text up to the first `=` and the value is the text between the first and second `=`. An
  argument without `=` stores `undefined`, modelled as `None`. A later flag overwrites an earlier
  one. Arguments that do not start with `--` are ignored. Assigning to the key `__proto__` of a
  plain JavaScript object is a no-op for string and `undefined` values, so that key never appears
  in the record. JavaScript's `split("=")` is modelled exactly (`Split`), and `Join` is proved to be
  its inverse.
- **Destination URL** (`ResolveApiUrl`). The first truthy value wins: the `flomo_api_url` flag,
  then the `FLOMO_API_URL` environment value, then `""`. A URL that itself contains `=` is cut at
  that character, because the flag parser drops everything after the second `=`.
- **Tool listing and tool call** (`tools.dfy`, module `Tools`). `ListTools` returns the single
  `write_note` descriptor. `CallTool` checks the tool name, then the URL, then the content, and
  only then calls the client. It then reads the client's reply by its shape. The result records
  the protocol response and the content handed to the client (`sent`). `sent == None` means no
  network call was made. Each `throw new Error(m)` is a `Failure(kind, m)`. The `kind` says which
  check failed: unknown tool, missing URL, invalid argument, client error, remote rejection.
- **JavaScript values** (`js_values.dfy`, module `JsValues`). The model gives
  arguments and reply fields one of a few primitive shapes: `undefined`, `null`, booleans,
  integral numbers and strings. For these shapes the module models truthiness (`!x`) and
  `String(x)`. Among them, `String(x)` is empty only for the empty string, so for these shapes the
  content check rejects exactly an empty-string argument. Arrays are not modelled; some of them
  (`[]`, `[""]`, `[null]`) also convert to `""` and are rejected by the source.

The argument vector, the environment value and the client's reply are parameters.

The tool's input schema declares `content` a required string (src/index.ts:60-68), but the
handler does not enforce this. The model follows the handler:

- A content argument that is missing, `null`, a boolean or a number is not rejected. It is
  converted with `String()`, and the client receives `"undefined"`, `"null"`, `"true"`, `"42"` and
  so on (`NonStringContentIsSent`). Content is not trimmed, so whitespace-only content is sent.
- A memo without a slug is rejected in the same way as a missing memo, and the reply's message is
  still reported (`PartialMemoIsRejected`).

## Model

| member | source | states |
|---|---|---|
| `Args.Split` | src/index.ts:25 | `split("=")` yields at least one piece, and no piece contains `=` |
| `Args.SplitThenJoin` | src/index.ts:25 | joining the pieces of a split with `=` gives back the original text |
| `Args.JoinThenSplit` | src/index.ts:25 | splitting a `=`-join of `=`-free pieces gives back exactly those pieces |
| `Args.SplitFirst` | src/index.ts:25 | the first piece is the text before the first `=`; the remaining pieces are the split of the text after it |
| `Args.IsFlag` | src/index.ts:24 | definition of `arg.startsWith("--")`: the argument has at least two characters and the first two are `-` |
| `Args.KeyValue` | src/index.ts:25 | the key is the `=`-free prefix up to the first `=`; the value is undefined exactly when there is no `=`; otherwise the value is the text between the first `=` and the next `=` or the end |
| `Args.KeyValueOf` | src/index.ts:25-26 | conversely, `key=value` followed by nothing or by a further `=` yields exactly that key and value |
| `Args.Store` | src/index.ts:26 | definition of `args[key] = value` on a plain object: the key gains the value and every other entry stays; for the key `__proto__` the prototype setter ignores string and `undefined` values, so the record is unchanged |
| `Args.Step` | src/index.ts:24-27 | definition of one pass of the `forEach` body: a non-flag argument changes nothing; a pass never removes a key; the only key it can add is the key of this flag; it never adds `__proto__` |
| `Args.FlagsOf` | src/index.ts:22-29 | definition of the record built from the user arguments in order, the reference for the loop: it never holds `__proto__`, and no key contains `=` |
| `Args.UserArgs` | src/index.ts:23 | definition of `process.argv.slice(2)`: the arguments after the first two, in order, and none when there are at most two |
| `Args.ParseArgs` | src/index.ts:21-30 | the loop builds exactly `FlagsOf` of the arguments after the first two |
| `Args.FlagsOfDomain` | src/index.ts:23-27 | a key is in the record exactly when some `--` argument names it and the key is not `__proto__` |
| `Args.FlagsOfLastWins` | src/index.ts:26 | the stored value is the one from the last flag naming the key; earlier ones are overwritten |
| `Args.NonFlagIgnored` | src/index.ts:24 | inserting an argument that does not start with `--` anywhere leaves the record unchanged |
| `Args.Given` | src/index.ts:33 | definition of the truthiness of a `string` or `undefined` operand of `or`: it holds exactly when JavaScript truthiness holds for that value, that is, for a non-empty string |
| `Args.ResolveApiUrl` | src/index.ts:33 | a non-empty flag value wins; otherwise a non-empty environment value; the URL is empty exactly when neither is given |
| `Args.UrlFromCommandLine` | src/index.ts:32-33 | `--flomo_api_url=<url>` with a `=`-free non-empty url, not repeated later, configures that url whatever the environment holds |
| `Args.UrlFromEnvironment` | src/index.ts:23-33 | when no argument after the first two is a `flomo_api_url` flag, the URL is the environment value if it is non-empty, else `""` |
| `Args.UrlCutAtSecondSeparator` | src/index.ts:23-33 | an argument `--flomo_api_url=<url>=<tail>` anywhere after the first two, with a `=`-free non-empty url and not followed by another `flomo_api_url` flag, configures `<url>`; the tail is lost |
| `JsValues.Truthy` | src/index.ts:82-96 | definition of JavaScript truthiness as used by `!apiUrl`, `!content`, `!result.memo.slug` and the short-circuit defaults of lines 33 and 96: a value is falsy exactly when it is `undefined`, `null`, `false`, `0` or `""` |
| `JsValues.ToJsString` | src/index.ts:86 | `String(v)` is empty exactly when `v` is the empty string, and is the string itself for strings |
| `JsValues.ConvertedTruthiness` | src/index.ts:86-89 | `!String(v)` holds only for the empty string; the falsy non-strings convert to the non-empty texts "undefined", "null", "false" and "0" |
| `JsValues.IntToDecimal` | src/index.ts:100 | definition of `String(n)` for an integral number, as used for a numeric slug: a leading `-` exactly for negatives, followed by decimal digits only |
| `JsValues.IntDecimalRoundTrip` | src/index.ts:86 | the decimal text `String(i)` gives for an integral number reads back as that number |
| `JsValues.IntToDecimalInjective` | src/index.ts:100 | different numeric slugs give different texts in the memo URL |
| `Tools.ListTools` | src/index.ts:54-73 | exactly one tool: `write_note`, "Write note to flomo", an object schema whose only property `content` is a string, and `required = ["content"]` |
| `Tools.ContentArgument` | src/index.ts:86 | `arguments?.content` is the value under `content` when the arguments exist and hold that key, and `undefined` otherwise |
| `Tools.MemoUrl` | src/index.ts:100 | definition of the memo-URL template: the fixed prefix `https://v.flomoapp.com/mine/?memo_id=` followed by `String(slug)`, longer than the prefix for any slug other than `""` |
| `Tools.HasSlug` | src/index.ts:94 | definition of the success test, the negation of the failure test at line 94: a memo is present and its slug is not `undefined`, `null`, `false`, `0` or `""`; such a slug makes a memo URL longer than its prefix |
| `Tools.RejectionDetail` | src/index.ts:96 | the detail is never empty: a non-empty message string is reported as it is, and a falsy message becomes "unknown error" |
| `Tools.CallTool` | src/index.ts:79-115 | the checks run in the order tool name, URL, content, and each failed check means no client call; the client is called exactly when all pass, with the non-empty converted content; the result is success exactly when the reply has a memo with a truthy slug, and then the text is the success prefix plus the memo URL; otherwise a client error propagates unchanged, or the failure is "Failed to write note to flomo: " plus the detail |
| `Tools.DispatchMatchesListing` | src/index.ts:54-113 | a call fails as an unknown tool exactly when the listing advertises no tool of that name |
| `Tools.SuccessTextNamesMemo` | src/index.ts:94-106 | whenever the handler succeeds, its text is the success prefix followed by `https://v.flomoapp.com/mine/?memo_id=` and `String(slug)` of the reply's slug, so it ends with the memo URL, and `String(slug)` can be read back from a fixed offset |
| `Tools.NonStringContentIsSent` | src/index.ts:86-89 | a missing or non-string content passes the check; missing content (no arguments, or no `content` key) is sent as "undefined" |
| `Tools.PartialMemoIsRejected` | src/index.ts:94-98 | a memo without a slug is a remote rejection that reports the reply's message, or "unknown error" when the message is empty |
| `Tools.HelloWorldScenario` | src/index.ts:79-109 | URL set, content "hello world", slug "abc123": "hello world" is sent, and the result is success with the text ending in `memo_id=abc123` |
| `Tools.RateLimitedScenario` | src/index.ts:94-98 | URL set, reply with message "rate limited" and no memo: the failure message is "Failed to write note to flomo: rate limited" |

## Left out

- `FlomoClient.writeNote` and its HTTP POST: the `FlomoClient` module (`./flomo.js`) is not part of this model. What the
  client returns or throws is the `reply` parameter of `CallTool`. A thrown error is represented
  by its message alone.
- The MCP SDK: the `Server` object, handler registration, `StdioServerTransport`, `server.connect`
  and the wire framing of responses. `Success(text)` stands for
  `{ content: [{ type: "text", text }] }`, and `Failure` stands for the thrown `Error`.
- `main`, `console.error` and `process.exit(1)`: these are process lifecycle and I/O.
- Reading `process.argv` and `process.env`: both are parameters. The environment value is
  `Option<string>`, where `None` means the variable is unset.
- `async`/`await`: once the client's reply is a parameter, the handler runs in sequence.
- JsValues.ToJsString: covers only primitive values. Objects, arrays, `NaN`, infinities and
  non-integral numbers are not modelled. Arrays matter to the content check: `String([])`,
  `String([""])` and `String([null])` are `""`, so the source rejects such content with
  "Content is required", and the model does not show this.
- JsValues.IntToDecimal: prints every integer's exact digits. JavaScript numbers are doubles.
  Above 2^53, `String` prints the shortest digits that round-trip, padded with zeros:
  `String(2**64)` is `"18446744073709552000"`, not `"18446744073709551616"`. From 10^21 on it
  uses exponent notation. `Int(i)` also admits integers that no JavaScript number can hold.
- A reply body of JSON `null` is not modelled: `result.memo` throws a `TypeError` for it. A
  number, string or boolean body has no `memo` or `message`, and is represented as
  `NoteResult(None, Undefined)`. A truthy memo that is not an object has
  no `slug`, and is represented as `Memo(Undefined)`.
- Key order of the tool descriptor's JSON objects: the schema's properties are a `map`.
