# gauntlet-find, modelled in Dafny

This project models two parts of the gauntlet-find launcher plugins and proves their contracts.

- **The file finder's helpers** (`js/find.js`) are in module `Find`:
  - `MIME`, the MIME-type to icon classifier;
  - `fmtPerms` with its `fmtTriad`, the `ls -l` permission string of a mode;
  - the unit-selection loop of `fmtSize`;
  - the `gf` protocol: the `q:<query>` search line, the `c:Exit` line, and the parsing of one reply chunk into numbered result records with their basenames;
  - the path that the "Show in explorer" action opens;
  - the `search` and `exit` closures over the `gf` pipes, as class `Find.Finder`.
- **The pop-launcher client** (`src/template-view/index.tsx`) is in module `PopLauncher`:
  - the request and response types;
  - the newline-framed JSON request encoding;
  - the choice of the first parseable line of a response chunk;
  - class `PopLauncher.PopLauncherClient`, with the three nullable handles `process`, `writer` and `reader`. Its methods are `Connect`, `SendRequest`, `ReadResponse`, `Search`, `Activate` and `Close`.

Supporting modules:

- `Wrappers` holds `Option`, `Result` and `Outcome`.
- `Strings` covers the JavaScript string operations the code relies on:
  - `split` on one character, with `join` as its inverse;
  - `trim`, using the ECMAScript whitespace set;
  - `includes` and `lastIndexOf`;
  - the `filter(line => line.trim())` idiom.
- `Streams` holds the outcome of one pipe operation: a read yields a chunk of text or rejects, and a write is accepted or rejects.
- `JsonText` covers the part of `JSON.stringify` that requests use: string quoting with its escapes (as in section 7 of RFC 8259), and the printing of integers. It includes decoders as their partners.

Modelling choices:

- **Pipes.** What the child's input has accepted is a `sent: seq<string>` log, one entry per write. The pop-launcher writer holds the outcome of each write to come (accepted or rejected), so a writer can take a search and then reject the "Exit" of a later close. A rejected write leaves the stream errored, and a writer with no outcome left rejects. What the child will yield is a sequence of `ReadResult`s held by the reader. Each read takes one element.
- **Parameters for outside code.** `JSON.parse` is the parameter `parse: string -> Option<Response>`, with `None` standing for a thrown parse error. `getMimeTypeSync` is the parameter `mimeOf`. `Deno.Command(...).spawn()` becomes the `spawn` argument of `Connect`. The path separator, `\` on Windows and `/` elsewhere, is the `sep` argument of `RevealPath`.
- **Missing MIME type.** The caller passes `file.mime ?? ''`, and `getMimeTypeSync` always returns a string. A MIME type is therefore a `string`, and the falsy value is `""`.
- **Permission bits.** `fmtPerms` applies `>>` and `&` to a JavaScript number. These operators see the number's 32-bit two's-complement form. The model takes that form explicitly (`ToUint32`) and works on `bv32`.
- **Sizes.** `fmtSize` divides by 1024. That division is exact in binary floating point, so the loop is modelled over `real`.
- **Reads are chunks, not lines.** A read returns a chunk that may hold several lines. `readResponse` picks the first of those lines that parses, and the model follows the code in this.

## Model

| member | source | states |
|---|---|---|
| Find.Mime | js/find.js:49-67 | An absent MIME type gives Document. Any other icon is justified by a keyword, among the seven, that the type contains and that selects that icon |
| Find.MimeIsFirstMatch | js/find.js:49-67 | For every MIME type, absent or not, the icon is the first rule, in the order image, directory, video, audio, application, html, text, whose keyword the type contains; the fallback is Document |
| Find.FirstMatchIsFirst | js/find.js:52-65 | In the priority-ordered reference classifier, the first rule whose keyword occurs decides the icon, whatever later rules say |
| Find.FirstMatchNone | js/find.js:66 | When no keyword occurs, the reference classifier falls back to Document |
| Find.MimeDocument | js/find.js:49-67 | The icon is Document if and only if the MIME type is absent or contains none of the seven keywords |
| Find.MimeDirectory | js/find.js:54-55 | `inode/directory` gets the Folder icon |
| Find.MimeHtml | js/find.js:60-65 | `text/html` gets the Code icon, because `html` is tested before `text` |
| Find.HtmlNeverText | js/find.js:62-65 | No MIME type that contains `html` gets the Text icon or the Document fallback |
| Find.ToUint32 | js/find.js:169-171 | The value the bit operators act on is the one number in [0, 2^32) congruent to the mode modulo 2^32 |
| Find.Triad | js/find.js:172-176 | A triad is three characters: r or `-`, then w or `-`, then x or `-` |
| Find.ShowBits | js/find.js:172-177 | Nine bits are shown as nine characters; column i shows its letter r, w or x exactly when bit i is set |
| Find.TriadsShowModeBits | js/find.js:169-177 | The owner, group and other triads, shifted out by 6, 3 and 0 and masked with 7, together show the mode's nine permission bits in `ls` order |
| Find.PermsOf | js/find.js:169-177 | The permission string has nine characters; character i is its column's letter when bit 8-i of the mode is set, and `-` otherwise |
| Find.Perms | js/find.js:166-178 | A null mode gives "Unknown"; any other mode gives the nine-character string of its 32-bit form |
| Find.PermsAlphabet | js/find.js:172-177 | Columns 0, 3 and 6 hold r or `-`; columns 1, 4 and 7 hold w or `-`; columns 2, 5 and 8 hold x or `-` |
| Find.PermsLowBits | js/find.js:169-171 | Two modes with the same low nine bits give the same string |
| Find.Perms755 | js/find.js:166-177 | Mode 0o755 gives "rwxr-xr-x" |
| Find.PermsValuePerms | js/find.js:166-177 | Reading back the bits a permission string shows gives the mode's low nine bits, so the string loses none of them |
| Find.PermsOfPermsValue | js/find.js:166-177 | Every string of the permission shape is the formatting of the mode it shows |
| Find.ScaleGrows | js/find.js:157 | Each unit is at least as large as the units before it |
| Find.UnitIsLargestWhole | js/find.js:160-163 | Where the loop stops, there is at least one whole of the chosen unit, and less than one of every larger unit |
| Find.SizeUnit | js/find.js:156-164 | The loop ends with a unit index of at most 4 (TB). The index is the largest k up to 4 with bytes ≥ 1024^k. The size times the unit's scale is the byte count. The size is below 1024 unless the unit is TB |
| Find.SearchCommand | js/find.js:84 | A search writes `q:` + query + newline; for a query without a newline, `gf` reads exactly the one line `q:<query>` |
| Find.ExitCommand | js/find.js:82 | The exit command `c:Exit` holds no newline, so it is not a terminated line |
| Find.Basename | js/find.js:89 | The displayed name contains no `/` unless it is the whole path. An empty path or one ending in `/` is its own name. Otherwise the name is the non-empty text after the last `/` |
| Find.Records | js/find.js:87-92 | Each path becomes one record, in order: its id is its position, and it carries the path, its basename and its MIME type |
| Find.ParseReply | js/find.js:85-92 | After blank lines are dropped, the first line (the count) is discarded, and the result has one record per remaining line, in order, with ids 0..n-1 |
| Find.ParseReplyRoundTrip | js/find.js:84-92 | A reply made of a count line and one line per path gives back exactly those paths, in order, with ids 0..n-1 |
| Find.RevealPath | js/find.js:133-137 | A directory, or a file without a MIME type, is opened itself. Any other path is cut after its last separator: the result is a prefix of the path, is empty or ends in the separator, and no separator follows it in the path |
| Find.RevealIdempotent | js/find.js:134-137 | Revealing a revealed path changes nothing |
| Find.RevealThenName | js/find.js:89 | For a file path not ending in `/`, the revealed directory followed by the displayed name is the whole path |
| Find.Finder.constructor | js/find.js:78-81 | A new finder has sent nothing, and its reader holds what `gf` will write |
| Find.Finder.Search | js/find.js:83-93 | The search line is written. A chunk is consumed and parsed into results. At end of stream the result is empty. A rejected read rejects the search and leaves the stream as it was |
| Find.Finder.Exit | js/find.js:82 | The exit command is written, and nothing else changes |
| Strings.Split | js/find.js:86 | Splitting gives at least one part; no part contains the separator; joining the parts gives the text back |
| Strings.SplitUnique | js/find.js:86 | Splitting the join of separator-free parts gives exactly those parts |
| Strings.SplitLast | js/find.js:89 | The last part of a split is the text after the last separator |
| Strings.LastIndexOf | js/find.js:135 | The index is -1 exactly when the character is absent; otherwise the character is at that index and at no later one |
| Strings.Trim | js/find.js:86 | A line trims to "" exactly when it is all whitespace |
| Strings.NonBlank | src/template-view/index.tsx:124 | Every kept line is non-blank and comes from the input, and every non-blank input line is kept; order and multiplicity are stated by `NonBlankAppend` and `NonBlankKeepsAll` |
| Strings.NonBlankAppend | js/find.js:86 | Filtering out blank lines distributes over concatenation, so it keeps the lines' order |
| Strings.NonBlankKeepsAll | js/find.js:86 | Lines that are all non-blank are all kept, unchanged |
| Strings.NonBlankLines | js/find.js:86 | Every line of `split('\n').filter(line => line.trim())` is non-blank and holds no newline |
| Strings.Includes | js/find.js:52-64 | A string that includes another is at least as long and holds each of its characters |
| JsonText.Escape | src/template-view/index.tsx:100 | The escaped body of a JSON string holds no newline or carriage return |
| JsonText.UnescapeEscape | src/template-view/index.tsx:100 | Decoding the body that `JSON.stringify` writes for a string gives that string back |
| JsonText.Quote | src/template-view/index.tsx:100 | A quoted string is one line between double quotes, and decoding its body gives the string back |
| JsonText.Int | src/template-view/index.tsx:100 | The text of a safe integer is one line, and reading it back gives that integer |
| PopLauncher.Stringify | src/template-view/index.tsx:100 | The JSON text of a request holds no newline |
| PopLauncher.ParseStringify | src/template-view/index.tsx:4-10 | Every request shape (`{Search: q}`, `{Activate: id}`, "Exit", "Interrupt") is read back from its JSON text as itself |
| PopLauncher.ParseSearch | src/template-view/index.tsx:4-6 | A search request is read back with its query intact, whatever characters the query holds |
| PopLauncher.ParseActivate | src/template-view/index.tsx:8-10 | An activation request is read back with its id intact |
| PopLauncher.Frame | src/template-view/index.tsx:100-101 | The bytes written are the request's JSON and exactly one newline, so the daemon reads exactly that JSON as one line |
| PopLauncher.FirstParsed | src/template-view/index.tsx:126-134 | The result is null exactly when no line parses. Otherwise it is the parse of some line such that no earlier line parses |
| PopLauncher.FirstParsedAt | src/template-view/index.tsx:126-130 | A line that parses, with no earlier line parsing, decides the response |
| PopLauncher.FirstParsedIgnoresRest | src/template-view/index.tsx:126-130 | Lines after the first one that parses do not affect the response |
| PopLauncher.ReadOutcome | src/template-view/index.tsx:111-140 | A read fails exactly when there is no reader, and then only with "Not connected". A response comes only from a chunk, as the parse of one of its non-blank lines |
| PopLauncher.ReaderAfterRead | src/template-view/index.tsx:117-123 | The reader stays present exactly when it was. A chunk read is consumed, exactly one element. An ended or errored stream is left as it is |
| PopLauncher.WriterAfterWrite | src/template-view/index.tsx:103-108 | An accepted write consumes exactly its outcome. After a rejected write the writer is unchanged and still rejects |
| PopLauncher.NoParseIsNull | src/template-view/index.tsx:126-139 | A chunk in which no non-blank line parses gives null, not an error |
| PopLauncher.UpdateResults | src/template-view/index.tsx:147-151 | An Update response yields exactly its own result list, and a non-empty list comes only from an Update; Fill, Close and null give the empty list |
| PopLauncher.PopLauncherClient.constructor | src/template-view/index.tsx:66-68 | A new client has all three handles null and has sent nothing |
| PopLauncher.PopLauncherClient.Connect | src/template-view/index.tsx:72-93 | If spawning throws, nothing changes. If a pipe is missing, the process is stored and the other handles keep their old values. Otherwise all three handles are set, and the writer and reader are the child's |
| PopLauncher.PopLauncherClient.SendRequest | src/template-view/index.tsx:95-109 | Without a writer: "Not connected". If the write rejects: "Failed to send". Otherwise the framed request is written and the writer consumes one outcome. The process and reader do not change |
| PopLauncher.PopLauncherClient.ReadResponse | src/template-view/index.tsx:111-140 | Without a reader: "Not connected". At end of stream, or when the read rejects: null, with the stream unchanged. Otherwise the chunk is consumed and the result is the first of its non-blank lines that parses, or null |
| PopLauncher.PopLauncherClient.Search | src/template-view/index.tsx:142-152 | `{Search: q}` is sent, then one response is read. An Update gives its list; Fill, Close or null give the empty list. Errors of either step propagate, and a failed send reads nothing |
| PopLauncher.PopLauncherClient.Activate | src/template-view/index.tsx:154-156 | `{Activate: id}` is sent, with the same outcomes as any request, and nothing is read |
| PopLauncher.PopLauncherClient.Close | src/template-view/index.tsx:158-180 | "Exit" is sent only when there is a writer. If that write rejects, the error is caught, nothing is sent and every handle stays. Otherwise all three handles become null |
| PopLauncher.CloseTwice | src/template-view/index.tsx:158-174 | Closing twice a client whose writer accepts sends "Exit" once and leaves every handle null |
| PopLauncher.SearchThenExitRejected | src/template-view/index.tsx:142-180 | A writer that accepts one write lets a search through and then rejects the "Exit" of the following close, which keeps every handle |

## Left out

- Finder pipe check: spawning `gf` and the check for missing pipes (js/find.js:68-77, 96-98) are not modelled. `Find.Finder` starts from pipes that exist. `PopLauncherClient.Connect` models the same check.
- `getMimeTypeSync` (js/find.js:23-47) and `src/script/file.ts` shell out to the `file` command. The MIME type is the parameter `mimeOf`.
- `open` (js/find.js:6-21) launches a platform command. `RevealPath` gives the path it would be handed.
- `readData`, `Deno.lstatSync` and the Clipboard writes are file and host I/O.
- The React components, their state hooks and JSX rendering (js/find.js:111-155, src/template-view/index.tsx:33-63) are not modelled, except for the reveal computation.
- `size.toFixed(1)` and `toLocaleString` are floating-point and locale formatting. `SizeUnit` returns the size and unit that `fmtSize` formats.
- `JSON.parse` is the parameter `parse`, which either gives one of the three response shapes or throws. A line that `JSON.parse` accepts but that fits none of the three shapes is not modelled. For a falsy value (`null`, `0`, `false`, `""`), `readResponse` returns it at once without trying later lines of the chunk, and `search` returns `[]`. For a truthy primitive (a non-zero number, a non-empty string, `true`), `'Update' in response` throws a `TypeError`.
- TextEncoder and TextDecoder are identity on strings. A UTF-8 sequence split across two chunks is not modelled.
- Promises, `await` and stream locking are not modelled. Each `read()` takes one element of the reader's sequence. The `gf` write in `search` is not awaited, so a rejected write there is not modelled.
- `writer.close()`, `reader.cancel()` and `await process.status` are modelled as succeeding once the "Exit" write has succeeded.
- Console logging is not modelled.
- Lone UTF-16 surrogates are not modelled, because Dafny characters are Unicode scalar values. `JSON.stringify` would escape them.
- Activate ids are safe integers, |id| ≤ 2^53 - 1 (`JsonText.SafeInteger`). Other JavaScript numbers are not modelled. That covers fractions, `-0`, NaN and the infinities. It also covers integers beyond 2^53, which a number cannot always hold exactly and which `JSON.stringify` prints in exponent form from 10^21 on.
- Find.Perms: a mode that is not an integer is not modelled. The model takes `int`, and JavaScript's `ToInt32` would first truncate a fraction.
