# Verified model of personad

personad is a deterministic OpenID Connect provider for development and CI. This project models
its three connected parts in Dafny and proves what they promise, for all inputs and all runs.

1. **The persona file.** A byte-level parser for a TOML subset builds tables in place
   (`TomlParser`, `TomlHeap`). It is proved against a functional grammar (`TomlSyntax`) and against
   tree semantics of the statements (`TomlTree`, `TomlEffects`, `TomlRuns`): it always ends, its line
   numbers are right, its tables are an unshared image of the tree, nothing is overwritten, layout
   does not matter (`TomlText`, `TomlDocument`), the accepted texts are exactly those of a written
   grammar (`TomlGrammar`) whose numbers, escapes and characters are spelled out (`TomlLiterals`),
   for each way a text goes wrong the error and its place are told (`TomlRefusals`, `TomlErrors`),
   and parsing inverts printing (`TomlSections`, `TomlListing`, `TomlDocument`). The loader and validator
   (`Config`) accept exactly the valid configurations and report the first error of any other;
   `ConfigFiles` says key by key which configuration a file describes, and writes one for each.
2. **The grant protocol.** Authorization codes, PKCE and rotating refresh tokens under concurrent
   requests (`Stores`, `Pkce`, `Requests`, `Protocol`, `Runs`, `Servers`). Every store operation is
   one atomic step; between taking a grant and issuing the next refresh token the request itself
   holds the grant. Invariants hold in every interleaving, and the handlers refine the steps.
3. **Claims and tokens.** Ordered JSON objects (`Json`, `Objects`), compact JWTs (`Base64`, `Jwt`),
   scope splitting (`Scopes`), claim release and times (`Issuers`), and what /userinfo and
   /introspect answer (`Bearers`).

The parts meet in `Runs.EndToEnd`: what was authorized at /authorize is exactly what /userinfo
returns for the access token of any response, after any number of rotations. `Witness` gives a server
and a run that meet all hypotheses, and a configuration or run at which each sharp condition fails.

## Conventions

- A Go string is a Dafny `string` whose characters stand for bytes. UTF-8 is modelled explicitly.
- Library calls are function values: SHA-256 and float formatting (`Issuers.Platform`), URL,
  duration and RFC 3339 parsing (`Config.Library`), signing and verification (`Jwt.Signer`). What is
  needed of them is a named hypothesis: a produced signature verifies for its message and the key
  id is valid UTF-8 (`Jwt.Sound`), a hash has 32 bytes and the literal of a finite float has a JSON
  number for a text (`Issuers.ProperPlatform`). That claims hold finite floats only is proved
  (`TomlFinite.ParsedFinite`, `Config.LoadedIsValid`). Only store accounting assumes that the truncated hash does not collide
  on the issuance numbers of the run (`Runs.CollisionFree`).
- Instants and durations are integers in nanoseconds. Where a lemma reads an exp back from a token it
  assumes that it fits 64 bits, as every Unix time in Go does.
- Errors are data: which error arises is modelled, its wording is not.
- Go's map iteration order is a nondeterministic choice.

## Where the code and its documentation disagree

The model follows the code.

- `docs/persona-format.md` lines 42-47 describe a `[personas.claims]` table for the most recent
  `[[personas]]` entry. The set of table headers already seen is never cleared
  (`internal/toml/toml.go` lines 214-229), so the second such table is rejected as defined twice:
  `TomlRuns.SecondClaimsTableRejected`, with the exact condition in `TomlRuns.HeaderCondition`.
  Dotted keys (`claims.level = 5`) work.
- The same page releases `email` and `groups` under their own scopes only. The names are not
  reserved, and a custom claim of that name is released under `profile`: `Issuers.GatedExactly`
  gives the exact condition, `Witness.EmailWithoutScope` a configuration at which it fails.
- `internal/oidc/store.go` lines 2-3 call the Nth code always the same string. Codes and refresh
  tokens share one counter: authorize, redeem, authorize again, and the second code is number 3
  (`Witness.SecondCodeIsThird`). `Runs.NthCode` and `Runs.SameCode` give the exact conditions.
- A machine token has no persona claims, but /userinfo resolves it when its client id is some
  persona's subject: `Bearers.UserinfoOfClient`, `Witness.ClientTakenForPersona`.
- A subject that is not UTF-8 is altered in its token, and its persona is not found again:
  `Runs.EndToEnd` has the exact condition, `Witness.SubjectLost` a run.
- The comment on `deriveID` binds a jti to its parts. They are joined by zero bytes, so parts that
  hold zero bytes can meet: `Issuers.JtiMeets`; without them `Issuers.JtiExactly` holds.
- `expires_in` can be a second short of exp minus iat for a frozen time with a fraction and a
  lifetime with a fraction: `Issuers.Lifetime`, `Issuers.ExpiresInOff`.

## Model

| member | source | states |
|---|---|---|
| TomlParser.Parse | internal/toml/toml.go:23-45 | for every input it ends; it succeeds exactly when the text denotes a tree and then returns freshly built tables that are an unshared image of that tree with uniform arrays; otherwise the error kind is the one of the reading function and its line is one more than the newlines before the first unread byte |
| TomlParser.Parser.Statements | internal/toml/toml.go:29-44 | the statement loop ends in the state of the run function, success or error, and keeps cursor and heap invariants |
| TomlParser.Parser.Advance | internal/toml/toml.go:65-72 | one byte forward; the line counter follows the newlines passed |
| TomlParser.Parser.SkipBlanks | internal/toml/toml.go:74-89 | skips exactly whitespace, newlines and comments |
| TomlParser.Parser.SkipInlineSpace | internal/toml/toml.go:91-96 | skips exactly spaces and tabs, and the line stays right although the counter is not touched |
| TomlParser.Parser.ExpectLineEnd | internal/toml/toml.go:98-121 | accepts LF, CR, CRLF, a comment or the end of the text, and reports anything else where it stands |
| TomlParser.Parser.ParseKeyPath | internal/toml/toml.go:138-177 | reads the dotted key the grammar function reads, with the same error at the same place |
| TomlParser.Parser.ParseKeyPart | internal/toml/toml.go:147-168 | one part of a key: basic, literal or bare |
| TomlParser.Parser.ParseBasicString | internal/toml/toml.go:361-421 | the string builder ends with the bytes the string denotes; errors as specified |
| TomlParser.Parser.ParseEscape | internal/toml/toml.go:375-416 | one escape; the direct jump over the hex digits keeps the line counter right |
| TomlParser.Parser.ParseLiteralString | internal/toml/toml.go:423-441 | a literal string is the slice up to its closing quote |
| TomlParser.Parser.ParseBool | internal/toml/toml.go:443-453 | true, false or the error |
| TomlParser.Parser.ParseNumber | internal/toml/toml.go:455-492 | an integer, a float, a refused datetime or an error, with the cursor after the token; what a token means is stated in TomlLiterals |
| TomlParser.Parser.ParseValue | internal/toml/toml.go:333-359 | the value and the rest of the text that the grammar function gives, as a Go value without tables |
| TomlParser.Parser.ParseArray | internal/toml/toml.go:494-525 | nested arrays over several lines with comments and a trailing comma |
| TomlParser.Parser.Descend | internal/toml/toml.go:259-286 | walks the real tables as the tree walk says, creating missing ones in place and entering the last element of an array of tables; on an error too, the tables stay an unshared image of the tree |
| TomlParser.Parser.OpenTable | internal/toml/toml.go:212-229 | the new current table is in the tree at the header path; a repeated header or a conflict is the specified error |
| TomlParser.Parser.OpenArrayTable | internal/toml/toml.go:231-257 | a fresh table is appended to (or starts) the array and becomes current |
| TomlParser.Parser.AppendTable | internal/toml/toml.go:239-253 | the append itself: every other table and every other entry keeps its place and contents |
| TomlParser.Parser.NewSubtable | internal/toml/toml.go:266-269 | a fresh empty table under a free key keeps the image faithful and unshared |
| TomlParser.Parser.SetKey | internal/toml/toml.go:309-329 | dotted keys under the current table; the leaf must be free, nothing is overwritten |
| TomlParser.Parser.DescendKeys | internal/toml/toml.go:309-322 | the dotted walk over the real tables, creating missing ones in place |
| TomlParser.Parser.ParseTableHeader | internal/toml/toml.go:181-210 | scan of the header line, then its effect; tree errors carry the line after the newline was consumed |
| TomlParser.Parser.ParseKeyValue | internal/toml/toml.go:290-329 | scan of key, value and line end, then its effect, or the error |
| TomlParser.Parser.Entry | internal/toml/toml.go:47-55 | what a Go map entry says about the tree: same scalars and arrays, and for a table the object placed there |
| TomlHeap.WriteConsistent | internal/toml/toml.go:47-55 | writing one entry (and placing at most one new table) keeps all tables mirroring the tree |
| TomlHeap.ElementConsistent | internal/toml/toml.go:244-253 | appending a fresh table to an array of tables keeps every table mirroring its part of the tree |
| TomlHeap.SubtableConsistent | internal/toml/toml.go:266-269 | the same for a fresh sub-table |
| TomlHeap.ValueConsistent | internal/toml/toml.go:323-328 | the same for a table-free value |
| TomlHeap.EntryDenotes | internal/toml/toml.go:237-256 | the type switch on an entry sees what the tree holds |
| TomlTree.PutShape | internal/toml/toml.go:323-328 | a write changes exactly the positions at or below the written entry |
| TomlTree.Extensional | internal/toml/toml.go:20-22 | a tree is determined by what sits at its indexed positions |
| TomlTree.WalkShape | internal/toml/toml.go:259-286 | a walk creates only missing tables on the way to the spot it reaches |
| TomlTree.WalkDestination | internal/toml/toml.go:259-286 | a walk ends along the keys of its path and enters arrays of tables only through their last element |
| TomlTree.WalkSucceeds | internal/toml/toml.go:309-322 | a dotted walk succeeds exactly when every position on the way is a table or free |
| TomlTree.CrossingSucceeds | internal/toml/toml.go:259-286 | a header walk succeeds exactly when the positions of the tree lead along its keys, entering lists through a last element that is a table, and then it ends at that one position |
| TomlEffects.HeaderEffect | internal/toml/toml.go:212-229 | a table header adds only missing tables on its path |
| TomlEffects.ArrayEffect | internal/toml/toml.go:231-257 | an array header adds one empty table at the end of an array that was absent, empty or of tables, and only missing tables besides |
| TomlEffects.HeaderDestination | internal/toml/toml.go:212-229 | the new current table lies along the header path, through the last element of every array of tables on the way |
| TomlEffects.ArrayDestination | internal/toml/toml.go:231-257 | the new current table is the last element of the array the header names |
| TomlEffects.KeyEffect | internal/toml/toml.go:309-329 | a key/value adds exactly its own leaves under the current table, at a position that was free, and missing tables on the way |
| TomlEffects.KeyCondition | internal/toml/toml.go:309-326 | a key/value is accepted if and only if its position is free and no proper prefix of it holds a value |
| TomlEffects.TableCondition | internal/toml/toml.go:214-229 | the exact condition for a table header, on the remembered headers and the positions of the tree |
| TomlEffects.ArrayCondition | internal/toml/toml.go:231-257 | the exact condition for an array header, on the positions of the tree |
| TomlEffects.ApplyUniform | internal/toml/toml.go:237-256 | every statement keeps each array either all tables or free of tables at any depth |
| TomlRuns.RunScalars | internal/toml/toml.go:214-329 | over any accepted run the scalars of the tree are the initial ones and those the key/values provide |
| TomlRuns.RunDisjoint | internal/toml/toml.go:323-328 | no position gets a scalar from two statements, nor one it already had |
| TomlRuns.RunKeeps | internal/toml/toml.go:214-329 | positions never lose what they hold; arrays only grow |
| TomlRuns.ExplicitHistory | internal/toml/toml.go:215-226 | the set of remembered headers is exactly the set of joined header paths so far |
| TomlRuns.HeaderCondition | internal/toml/toml.go:214-229 | a table header is accepted after a run if and only if no earlier header has the same joined path and along the path each key finds nothing, a table, or a list that ends in a table, in which the path goes on |
| TomlRuns.ArrayHeaderCondition | internal/toml/toml.go:231-257 | an array header is accepted after a run if and only if the front of its path can be walked like that and the array is absent, an empty list, or a list that ends in a table |
| TomlErrors.TableRefused | internal/toml/toml.go:218-225 | a table header is refused as defined twice exactly for a remembered path, and otherwise exactly for the scalar, the empty list or the list without a table that stops its path |
| TomlErrors.ArrayRefused | internal/toml/toml.go:231-257 | an array header is refused exactly for what stops the front of its path, or for a last position that is no array or ends in no table |
| TomlErrors.KeyRefused | internal/toml/toml.go:309-326 | a key is refused exactly for a value on the way to it, or else for being set already |
| TomlRuns.HeaderOnce | internal/toml/toml.go:218-226 | a table header can be given once per document, whatever comes in between |
| TomlRuns.SecondClaimsTableRejected | internal/toml/toml.go:214-257 | a claims table under each of two persona elements is rejected at the second one, while a dotted key in its place is accepted |
| TomlSections.KvExec | internal/toml/toml.go:290-329 | a block of key/values in an empty table is accepted if and only if no key is a prefix of another, and the table becomes exactly what they say |
| TomlListing.ListingExec | internal/toml/toml.go:23-45 | running the listing of a config-shaped tree rebuilds exactly that tree |
| TomlText.UnicodeEscape | internal/toml/toml.go:396-413 | a \u or \U escape is accepted if and only if its digits denote a Unicode scalar value, and contributes exactly its UTF-8 encoding |
| TomlText.BasicText | internal/toml/toml.go:361-421 | any spelling of a basic string reads as the bytes it means |
| TomlText.QuoteMeaning | internal/toml/toml.go:361-421 | quoting any byte string and reading it back is the identity |
| TomlText.LiteralText | internal/toml/toml.go:423-441 | literal strings read back verbatim |
| TomlText.KeyPathText | internal/toml/toml.go:138-177 | a dotted key in any mixture of bare, basic and literal parts and inner spaces reads as its parts |
| TomlText.ValueParses | internal/toml/toml.go:333-359 | a value in any layout and spelling reads as its meaning and stops at its end |
| TomlText.ItemsParse | internal/toml/toml.go:494-525 | spaces, newlines, comments and a trailing comma between array elements change nothing |
| TomlDocument.LineParses | internal/toml/toml.go:181-210 | one line with any blanks before it and any line end, a comment that ends the text included, reads as its statement |
| TomlDocument.TextParses | internal/toml/toml.go:23-45 | a document in any layout gives what running its statements gives, success or error |
| TomlDocument.RunIsExec | internal/toml/toml.go:23-45 | reading and acting line by line is the same as scanning all statements and then running them |
| TomlDocument.AcceptedTree | internal/toml/toml.go:23-45 | for every accepted text: the scalars of the tree are the disjoint union of what its key/values provide, and arrays are uniform |
| TomlGrammar.ValueRead | internal/toml/toml.go:333-359 | every value that is read is the text of some spelling and layout of its meaning |
| TomlGrammar.Language | internal/toml/toml.go:23-45 | a text scans to statements if and only if it is a document of the written grammar that means them |
| TomlGrammar.AcceptedLanguage | internal/toml/toml.go:23-45 | a text is accepted with tree t if and only if it is a document of the grammar whose statements run from the empty tree to t |
| TomlFinite.ParsedFinite | internal/toml/toml.go:455-492 | every float in the tree of an accepted text is finite |
| TomlDocument.StmtsRoundTrip | internal/toml/toml.go:23-45 | any statement list survives printing and parsing, with its outcome |
| TomlDocument.RoundTrip | internal/toml/toml.go:23-45 | Parse(Print(t)) = t for every config-shaped tree over any strings, 64-bit integers, clean floats and nested arrays |
| TomlDocument.PrintValueMeaning | internal/toml/toml.go:333-359 | a printed value means the value it was printed from |
| Utf8.DecodeEncode | internal/toml/toml.go:409-413 | the decoder inverts the encoder, whatever follows (RFC 3629 section 3) |
| Utf8.EncodeDecode | internal/toml/toml.go:409-413 | the decoder accepts only shortest-form encodings of scalar values |
| Numerals.ParseDecimal | internal/toml/toml.go:487-491 | printing and parsing an integer agree exactly on the 64-bit range |
| TomlLiterals.Underscores | internal/toml/toml.go:479 | underscores change nothing, wherever they stand |
| TomlLiterals.IntegerToken | internal/toml/toml.go:487-491 | an optional sign and digits, leading zeros allowed, mean the signed sum of digits times powers of ten, and are refused exactly outside the 64-bit range |
| TomlLiterals.IntegerExactly | internal/toml/toml.go:487-491 | no other token without a point or an exponent is an integer |
| TomlLiterals.FloatExactly | internal/toml/toml.go:480-485 | a float literal is accepted exactly if it is a sign, digits around an optional point and an optional exponent, in the range of 64-bit floats |
| TomlLiterals.NumberExactly | internal/toml/toml.go:455-492 | a number token is the longest run of its seventeen characters; it is refused as a datetime exactly before a colon, T or Z or with two dashes and no exponent |
| TomlLiterals.EscapeTable | internal/toml/toml.go:381-395 | the seven one-letter escapes and their bytes |
| TomlLiterals.NoOtherEscape | internal/toml/toml.go:414-415 | any other letter after a backslash is refused |
| TomlLiterals.HexPlaces | internal/toml/toml.go:404-405 | hexadecimal digits are read by place value |
| TomlLiterals.BareKeyExactly | internal/toml/toml.go:160-165 | a bare part of a key is the longest run of letters, digits, dashes and underscores |
| TomlRefusals.EscapeRefused | internal/toml/toml.go:376-416 | an escape is refused exactly if it is cut off, has an unknown letter, too few characters, a character that is no hexadecimal digit, or no scalar value, and is told which |
| TomlRefusals.BasicRefused | internal/toml/toml.go:361-421 | after any spelling of a string so far: the end of the text, a newline and a bad escape are each told where they stand |
| TomlRefusals.LiteralRefused | internal/toml/toml.go:423-441 | the same for a literal string |
| TomlRefusals.KeyRefused | internal/toml/toml.go:139-168 | a dotted key is refused at its first bad part for what is wrong with it |
| TomlRefusals.ValueRefused | internal/toml/toml.go:333-359 | what cannot begin a value, and the unsupported forms, are each told apart |
| TomlRefusals.ElementRefused | internal/toml/toml.go:497-509 | an array is refused at its first bad element, or as unterminated |
| TomlRefusals.CommaMissing | internal/toml/toml.go:510-523 | an element must be followed by a comma or the closing bracket |
| TomlRefusals.HeaderUnclosed | internal/toml/toml.go:192-194 | a header key that no bracket follows |
| TomlRefusals.ArrayHeaderUnclosed | internal/toml/toml.go:196-199 | an array header with one bracket only |
| TomlRefusals.EqualsMissing | internal/toml/toml.go:295-298 | a key that no equals sign follows |
| TomlRefusals.KeyValueRefused | internal/toml/toml.go:299-304 | a key/value is refused for what is wrong with its value |
| TomlRefusals.TrailingRefused | internal/toml/toml.go:98-121 | anything but blanks and a comment after a statement |
| TomlRefusals.DocumentRefused | internal/toml/toml.go:29-44 | a document is refused at its first bad line with the error of that line and the text left there, whatever lines stand before it |
| TomlRefusals.StatementRefused | internal/toml/toml.go:29-44 | ... or at the first statement that the tree does not take, with its error |
| Json.CharsRead | internal/jose/json.go:68-72 | a written string literal reads back, with bytes that are not UTF-8 replaced |
| Json.CleanValid | internal/jose/json.go:68-72 | a string survives JSON unchanged if and only if it is valid UTF-8; what comes out is always valid |
| Json.CleanToAscii | internal/jose/json.go:68-72 | no other string cleans to a given ASCII string |
| Json.ValueRead | internal/jose/json.go:74-78 | every encodable value reads back, cleaned, and reading stops at its end |
| Json.AsciiWritten | internal/jose/json.go:68-78 | how each ASCII byte is written: seven by a letter, the other control characters and the three of HTML by number, every other one as it is |
| Json.RuneWritten | internal/jose/json.go:68-78 | a character beyond ASCII is written as it is, but for the two line separators |
| Json.ArrayWritten | internal/jose/json.go:74-78 | an array is its elements between brackets with commas between them |
| Objects.Builder.Set | internal/jose/json.go:25-33 | a new key goes last, a known key keeps its position and gets the new value |
| Objects.Builder.SetSorted | internal/jose/json.go:35-48 | from any enumeration of the map: its values win, known keys keep their positions, the others follow in strictly ascending order |
| Objects.WithEntries | internal/jose/json.go:25-54 | after Set, Get gives the new value under that key and what it gave before under every other key; a known key keeps its place and a new one goes last |
| Objects.Builder.Len | internal/jose/json.go:56-57 | the number of entries of the map, counted on the key list |
| Objects.Builder.MarshalJSON | internal/jose/json.go:59-82 | the members in key order with commas between them, or an error exactly when some value cannot be encoded |
| Objects.BuiltKeys | internal/jose/json.go:25-33 | a chain of Set calls on distinct keys lists them in order |
| Objects.BuiltLookup | internal/jose/json.go:25-33 | and each key has its value |
| Objects.TextRead | internal/jose/json.go:59-82 | every object that can be written is read back (colliding cleaned keys: the last wins) |
| Objects.TextWritten | internal/jose/json.go:59-82 | the text is the members in key order between braces, each its name, a colon and its value, with commas between them and nothing else |
| Objects.ValidRead | internal/jose/json.go:59-82 | an object over valid UTF-8 reads back to exactly its entries |
| Objects.DecodedLookup | internal/jose/json.go:59-82 | an ASCII key reads back with its own value and only if it was written |
| Order.SortSorts | internal/jose/json.go:43 | sorting distinct strings gives the ascending sequence of the same strings |
| Order.SortCanonical | internal/jose/json.go:39-43 | sorting any enumeration of a key set gives one and the same sequence |
| Base64.RoundTrip | internal/jose/keys.go:22-26 | decoding inverts encoding, and the encoding contains no dot (RFC 4648 section 5) |
| Base64.Lenient | internal/jose/keys.go:25-26 | the decoder also accepts stray low bits and line breaks, so a token text is not unique |
| Base64.BreaksIgnored | internal/jose/keys.go:25-26 | line breaks are transparent wherever they stand |
| Base64.DecodesExactly | internal/jose/keys.go:25-26 | a text without line breaks is decoded exactly if it has only symbols of the alphabet and not one more than whole groups of four |
| Base64.DecodedSpells | internal/jose/keys.go:25-26 | what is decoded is spelled by the text, up to the spare low bits of the last symbol of an incomplete group |
| Base64.AlphabetOrder | internal/jose/keys.go:22-26 | the 64 symbols in their order |
| Base64.BigEndian | internal/jose/keys.go:22-26 | three bytes and their four symbols are the same 24-bit number, most significant digit first (RFC 4648 section 5) |
| Base64.PaddedRest | internal/jose/keys.go:22-26 | an incomplete group is written like the group filled up with zero bytes, and cut |
| Jwt.Split | internal/jose/jwt.go:39 | splitting yields parts without the separator whose join is the text |
| Jwt.HeaderFields | internal/jose/jwt.go:15-18 | the header holds alg, kid and typ in this order |
| Jwt.DecodeSigned | internal/jose/jwt.go:14-61 | a signed token splits into three parts that decode to the header, the claims, the signed input and the signature |
| Jwt.VerifySigned | internal/jose/jwt.go:66-81 | verifying what was signed succeeds and yields the claims, cleaned |
| Jwt.VerifyReturnsClaims | internal/jose/jwt.go:14-81 | over valid UTF-8 the verified claims are exactly those signed (RFC 7515 section 7.1) |
| Jwt.AcceptedInput | internal/jose/jwt.go:66-81 | an accepted token is a signed input, a dot and an encoding of a signature that verifies for that input |
| Jwt.DecodeExactly | internal/jose/jwt.go:36-61 | a text decodes to a token exactly if it is three segments without dots that spell the header, the claims and the signature |
| Jwt.VerifyExactly | internal/jose/jwt.go:63-81 | a text is accepted as a token exactly if it decodes to one whose alg and kid are the signer's and whose signature verifies |
| Jwt.RefusedFor | internal/jose/jwt.go:38-79 | which error a refused text gets: the number of its parts, the first segment that cannot be decoded, then algorithm, key and signature, each exactly when |
| Jwt.IntegerRead | internal/jose/jwt.go:89-100 | an integer claim comes back if it fits 64 bits and is 0 otherwise |
| Config.Decoder.Fail | internal/config/config.go:327-331 | the first type error sticks |
| Config.Decoder.Str | internal/config/config.go:333-344 | the string, or the default and a recorded error |
| Config.Decoder.Boolean | internal/config/config.go:346-357 | likewise for booleans |
| Config.Decoder.Strs | internal/config/config.go:359-379 | the list if all elements are strings, else nothing and one recorded error |
| Config.Decoder.Tables | internal/config/config.go:381-399 | the tables, or an error at once, exactly when some element is no table |
| Config.Decoder.Allow | internal/config/config.go:401-418 | reports an unknown key, and always the least one, whatever the map order |
| Config.LoadTree | internal/config/config.go:79-158 | the result is the immediate error if there is one, else the first type error in reading order, else the configuration exactly when it passes validation, else the first validation error in the order of the checks |
| Config.Load | internal/config/config.go:73-159 | a syntax error of the document, or the result for its tree |
| Config.LoadPersonas | internal/config/config.go:128-150 | personas in order, or the first one whose claims are no table |
| Config.LoadClients | internal/config/config.go:114-126 | clients in order with their type errors; what is taken from which key is stated in ConfigFiles.ClientRead |
| Config.LoadTokens | internal/config/config.go:89-112 | algorithm, key file, positive lifetime and frozen time, with defaults |
| Config.LoadedIsValid | internal/config/config.go:73-159 | a loaded configuration is valid, every float among its claims is finite, and its lifetime is positive |
| ConfigFiles.ClientRead | internal/config/config.go:118-126 | a [[clients]] table is read without a type error as a client exactly if it holds the client's id, secret and redirect URIs under their keys, each absent only if empty, and no other key |
| ConfigFiles.PersonaRead | internal/config/config.go:132-150 | a [[personas]] table likewise: name, subject, email, email_verified, groups and claims under their keys, with their defaults |
| ConfigFiles.TokensRead | internal/config/config.go:89-112 | the [tokens] table likewise: EdDSA, no key file, one hour and a running clock where a key is absent or empty |
| ConfigFiles.LoadsExactly | internal/config/config.go:73-159 | loading a tree yields a configuration exactly if the tree describes it, key by key in the documented names, and it passes validation |
| ConfigFiles.LoadsOnly | internal/config/config.go:73-159 | and then it yields nothing else |
| ConfigFiles.FileRoundTrip | internal/config/config.go:73-159 | for every configuration that passes validation, with texts for its lifetime and its time and writable claims: the file printed for it parses to the tree written for it, and loading that tree gives the configuration and nothing else |
| ConfigFiles.TokensRefused | internal/config/config.go:89-112 | each error of the [tokens] entry is given exactly when: no table, a lifetime that is no positive duration, a time that does not parse |
| ConfigFiles.EntriesRefused | internal/config/config.go:114-147 | [[clients]] or [[personas]] that are no tables, and claims that are no table, are told exactly when nothing before them ends reading |
| ConfigFiles.FaultRefused | internal/config/config.go:152-154 | a tree that is read to its end is refused for its first type error, by place and key in reading order |
| ConfigFiles.ValidationRefused | internal/config/config.go:155-157 | a tree that describes a configuration is refused exactly for what validation reports of it |
| Config.Validate | internal/config/config.go:169-251 | accepts only configurations that meet every rule, and otherwise reports the first error in its order: the head, the clients in order, the personas in order, within each the first failing check |
| Config.ReportedIsGenuine | internal/config/config.go:169-251 | what is reported is true of the configuration |
| Config.OneReport | internal/config/config.go:169-251 | the report is unique, up to the choice among the bad claims of one persona |
| Config.GenuineIsInvalid | internal/config/config.go:169-251 | an error that is true of a configuration means that it breaks a rule, so a reported configuration is never one that meets them all |
| Config.ValidatePersonas | internal/config/config.go:222-249 | all personas are fine, or the least one that is not is reported for its first failing check: name, subject, repeated name, repeated subject, claims |
| Config.ValidateClients | internal/config/config.go:196-220 | all clients are fine, or the least one that is not is reported for its first failing check: id, repeated id, redirect URIs, the first bad one of them |
| Config.ValidateClaims | internal/config/config.go:241-248 | all claims are fine, or one that is not is named, in any iteration order |
| Config.ValidClaimValue | internal/config/config.go:253-272 | true exactly for scalars and flat arrays of scalars |
| Config.LookupBySubject | internal/oidc/server.go:366-404 | looking a persona up by the name its subject finds gives P if and only if P is configured with that subject |
| Config.UniquePersona | internal/config/config.go:274-282 | in a valid configuration a persona is what its name finds |
| Config.UniqueClient | internal/config/config.go:284-292 | in a valid configuration a client is what its id finds |
| Scopes.SplitScope | internal/oidc/issuer.go:51-63 | the distinct fields of the scope in order of first occurrence |
| Scopes.HasScope | internal/oidc/issuer.go:65-72 | membership |
| Scopes.SplitJoin | internal/oidc/issuer.go:51-63 | the result is distinct words, and joining and splitting again restores it, for every input |
| Scopes.FieldsOfJoin | internal/oidc/issuer.go:56 | splitting inverts joining words by single spaces |
| Scopes.CleanFields | internal/oidc/issuer.go:56 | replacing bytes that are not UTF-8 commutes with splitting at Unicode white space |
| Scopes.ScopeSurvives | internal/oidc/issuer.go:51-72 | an ASCII scope is granted after join, JSON and split if and only if it was granted before, whatever the other scopes contain |
| Scopes.FirstOrder | internal/oidc/issuer.go:53-63 | two fields stand in the result in the order of their first occurrences |
| Scopes.FieldsApart | internal/oidc/issuer.go:56 | each of the 25 Unicode white space characters separates fields |
| Scopes.WordGrows | internal/oidc/issuer.go:56 | and no other character does |
| Issuers.Lifetime | internal/oidc/issuer.go:77-84 | exp minus iat is the whole seconds of the lifetime or one more; the former if and only if the fractions do not add up to a second |
| Issuers.ExpiresInExact | internal/oidc/server.go:307-344 | expires_in is exp minus iat for whole-second lifetimes and whenever the clock is not frozen |
| Issuers.ExpiresInOff | internal/oidc/server.go:307-344 | a frozen half second and a lifetime of 1.5 seconds make expires_in one second short |
| Issuers.Expiry | internal/oidc/issuer.go:33-40 | under a frozen clock no minted token expires; under a running one it does exactly when a later second than exp shows |
| Issuers.AddPersonaClaims | internal/oidc/issuer.go:126-143 | the imperative release ends in the specified object |
| Issuers.ReleasedValues | internal/oidc/issuer.go:132-143 | the exact value of every claim after the release; a custom claim of the same name wins under the profile scope |
| Issuers.ReleasedExactly | internal/oidc/issuer.go:126-143 | every claim after the release, from the file and the scopes: under profile a custom claim as it stands in the file, else groups, email and email_verified under their scopes, else what was there before |
| Issuers.UserinfoSays | internal/oidc/issuer.go:145-150 | a userinfo response has the subject under sub and nothing that no scope released |
| Issuers.ReleasedOrder | internal/oidc/issuer.go:126-143 | claim order: what was there, then email and groups, then the other custom claims ascending, independent of map order |
| Issuers.IDOrder | internal/oidc/issuer.go:74-90 | the full key list of an ID token: registered claims, nonce if any, released standard claims, other custom claims ascending |
| Issuers.AccessOrder | internal/oidc/issuer.go:92-108 | the full key list of an access token likewise |
| Issuers.UserinfoOrder | internal/oidc/issuer.go:145-150 | the full key list of a userinfo response: sub, standard claims, other custom claims ascending |
| Issuers.RegisteredKept | internal/config/config.go:161-167 | releasing claims of a valid persona changes, adds or removes no reserved claim |
| Issuers.GatedExactly | internal/oidc/issuer.go:126-143 | a standard claim stays behind its own scope if and only if the persona has no custom claim of that name |
| Issuers.SameRelease | internal/oidc/issuer.go:132-143 | only the email, groups and profile scopes matter |
| Issuers.Monotone | internal/oidc/issuer.go:132-143 | more scopes release no fewer claims |
| Issuers.ReleasedEncodable | internal/jose/json.go:84-92 | no minted object can fail to encode: valid personas have finite floats only |
| Issuers.DecimalIsNumber | internal/jose/json.go:74-78 | every integer claim is a JSON number |
| Issuers.IDToken | internal/oidc/issuer.go:74-90 | the signed ID claims, or nothing when the signer fails |
| Issuers.AccessToken | internal/oidc/issuer.go:92-108 | the signed access claims, or nothing when the signer fails |
| Issuers.ClientCredentialsToken | internal/oidc/issuer.go:110-124 | the signed machine claims without persona claims |
| Issuers.Userinfo | internal/oidc/issuer.go:145-150 | the userinfo claims |
| Issuers.ClaimsSupported | internal/oidc/issuer.go:186-211 | strictly ascending, and exactly the registered claims and what some persona can release |
| Issuers.SupportedIsComplete | internal/oidc/issuer.go:186-211 | claims_supported contains every key of every ID token and userinfo response |
| Issuers.SupportedExactly | internal/oidc/issuer.go:186-211 | a name is supported exactly if it is one of the seven registered ones or is in the userinfo response of some persona under some scopes |
| Issuers.JtiExactly | internal/oidc/issuer.go:152-164 | for a subject and a client id without zero bytes, two jti claims are equal exactly if subject, client, second and scope are, or the truncated hash collides |
| Issuers.JtiMeets | internal/oidc/issuer.go:152-164 | a zero byte in a subject and one in a client id can give two tokens one jti: the parts are joined by zero bytes |
| Issuers.HexDigitsOf | internal/oidc/issuer.go:163 | two lower-case hexadecimal digits for each byte of the hash |
| Pkce.ValidVerifier | internal/oidc/pkce.go:17-33 | true exactly for 43 to 128 unreserved characters (RFC 7636 section 4.1) |
| Pkce.VerifierExactly | internal/oidc/pkce.go:17-33 | the 66 unreserved characters, written out |
| Pkce.VerifyPKCE | internal/oidc/pkce.go:35-53 | true exactly when the verifier is well formed and proves the challenge under a supported method |
| Pkce.S256Proof | internal/oidc/pkce.go:43-60 | an accepted S256 challenge decodes to the hash of the verifier; a challenge made from a verifier is proved by it if and only if it is well formed |
| Pkce.PlainProof | internal/oidc/pkce.go:46-52 | a plain challenge is proved only by itself, and only if it is a verifier |
| Stores.Store.NewCode | internal/oidc/store.go:49-56 | the next credential, with the grant recorded under it |
| Stores.Store.TakeCode | internal/oidc/store.go:58-67 | the grant, and the code is gone |
| Stores.Store.NewRefresh | internal/oidc/store.go:69-76 | likewise for refresh tokens |
| Stores.Store.TakeRefresh | internal/oidc/store.go:78-87 | likewise for refresh tokens |
| Stores.KindsDiffer | internal/oidc/store.go:43-47 | codes and refresh tokens never coincide, for any numbers |
| Stores.CredentialExactly | internal/oidc/store.go:43-47 | two credentials of one kind are equal exactly if seed and number are, or the truncated hash collides; codes begin with pc_ and refresh tokens with pr_ |
| Requests.IssuedGrant | internal/oidc/server.go:78-160 | a code is issued if and only if the request is a complete code request for a proper grant, and for exactly that grant |
| Requests.RedirectsAreRegistered | internal/oidc/server.go:89-110 | every redirect, error or code, goes to a URI registered for the requesting client |
| Requests.UnknownExactly | internal/oidc/server.go:89-96 | the client is told to be unknown exactly if no client has the id |
| Requests.DecideExactly | internal/oidc/server.go:97-155 | every other answer of /authorize, each exactly when: unregistered URI, response type, openid not among the fields of the scope, method, challenge, picker, unknown persona, code |
| Requests.IsRedirectAllowed | internal/config/config.go:294-302 | membership in the registered URIs |
| Requests.Authenticated | internal/oidc/server.go:231-265 | authentication succeeds if and only if the client is known and the secret is its own; it counts as authenticated exactly if confidential |
| Requests.RefusedClient | internal/oidc/server.go:231-265 | every answer of client authentication, each exactly when |
| Protocol.StepMoves | internal/oidc/store.go:49-87 | every step moves at most one holder and gives its old place up |
| Protocol.HoldersKept | internal/oidc/store.go:49-87 | so each authorization keeps at most one holder |
| Protocol.StepKeeps | internal/oidc/server.go:78-351 | every step of every request keeps the whole invariant |
| Protocol.RunInv | internal/oidc/server.go:78-351 | in every interleaving: one holder per authorization, only proper grants, codes bound to their authorization, redemption once and proper, responses faithful to the authorization |
| Runs.OneHolder | internal/oidc/server.go:267-351 | a pending code, a request in flight and a live refresh token never share an authorization |
| Runs.DeadForever | internal/oidc/store.go:58-87 | an authorization without holder never has one again |
| Runs.RunGrows | internal/oidc/server.go:267-351 | history only grows, and a redemption is never repeated or overwritten |
| Runs.LoggedByAuthorize | internal/oidc/server.go:147-155 | each authorization was created by an authorize request, and its code is the one of its issuance number |
| Runs.AuthorizedOnce | internal/oidc/server.go:147-155 | and by one only |
| Runs.NthCode | internal/oidc/store.go:43-56 | the Nth code is the one derived from N if and only if no token response came before its authorize request, unless the truncated hash collides |
| Runs.SameCode | internal/oidc/store.go:43-56 | the Nth codes of two runs are the same if and only if equally many token responses came before them |
| Runs.IssuedCount | internal/oidc/store.go:43-47 | the counter equals codes handed out plus responses sent, so only the issuance number fixes a credential |
| Runs.Provenance | internal/oidc/server.go:267-351 | every token response traces to exactly one authorize request, which came before it; its code was redeemed with the registered redirect URI and a matching verifier; after any rotations client, persona, scope and nonce are unchanged |
| Runs.DefensiveBranches | internal/oidc/server.go:282-329 | the answers "public client redeemed a code without PKCE" and "persona no longer exists" are unreachable |
| Runs.SettleAnswers | internal/oidc/server.go:267-351 | a taken grant is answered with tokens if and only if client, redirect URI and proof match and the signer works; otherwise it is dead |
| Runs.RunAccounted | internal/oidc/store.go:43-87 | unless the truncated hash collides, the counter is pending codes plus live refresh tokens plus takes, no credential is taken twice, and codes and refresh tokens are disjoint |
| Runs.EndToEnd | internal/oidc/server.go:355-404 | the access token of any response of any run gets, until it expires, exactly the userinfo claims of the persona and scopes of the one earlier authorize request it stems from, if and only if issuer and subject are valid UTF-8; its ID token is refused |
| Witness.Witnessed | internal/oidc/server.go:78-351 | the hypotheses of the run theorems, freedom from collisions included, hold together for a small server and a run that authorizes, redeems, answers and authorizes again |
| Witness.SecondCodeIsThird | internal/oidc/store.go:43-56 | in that run the second code is the one derived from 3 |
| Witness.EmailWithoutScope | internal/oidc/issuer.go:126-143 | a valid configuration whose custom email claim is released without the email scope |
| Witness.ClientTakenForPersona | internal/oidc/server.go:366-370 | a valid configuration in which /userinfo answers a machine token with the claims of a persona |
| Witness.SubjectLost | internal/oidc/server.go:355-404 | a valid configuration with a subject that is not UTF-8, and a response whose access token does not get its persona's claims |
| Bearers.AccessAccepted | internal/oidc/server.go:374-395 | a minted access token is accepted until its exp has passed and then refused as expired |
| Bearers.IDTokenRefused | internal/oidc/server.go:384-386 | no ID token is ever accepted, for any persona, scopes and nonce |
| Bearers.AccessCarries | internal/oidc/issuer.go:95-108 | whatever the custom claims, an access token carries issuer, subject, audience, client, times, scope and use |
| Bearers.IDTokenClaims | internal/oidc/issuer.go:77-90 | whatever the custom claims, an ID token carries its registered claims, the nonce exactly if there is one, and no token_use |
| Bearers.MintedClaim | internal/jose/jwt.go:66-90 | an ASCII claim of a minted token reads back with its value, and an unsigned one is absent |
| Bearers.HandleUserinfo | internal/oidc/server.go:355-372 | the handler answers as the userinfo function says, which Bearers.UserinfoExactly characterises |
| Bearers.BearerExactly | internal/oidc/server.go:374-395 | the outcome for any Authorization header: no Bearer token, a text that is no token of the signer, or a token of the signer, refused for its issuer, its use or its age in this order and else accepted |
| Bearers.UserinfoExactly | internal/oidc/server.go:355-404 | /userinfo answers with an object exactly if the header presents a token of the signer, unexpired, of this issuer, for access, whose subject is a persona's, and then with that persona's claims for the scopes in the token |
| Bearers.UnknownSubjectExactly | internal/oidc/server.go:366-370 | and says that the subject is unknown exactly for such a token whose subject is no persona's |
| Bearers.UserinfoOfAccess | internal/oidc/server.go:355-404 | an unexpired access token gets its persona's claims if and only if issuer and subject are valid UTF-8 |
| Bearers.UserinfoOfClient | internal/oidc/server.go:366-370 | a machine client's token is refused if and only if no persona has the client id, as it reads back, for subject; otherwise it gets that persona's claims |
| Bearers.IntrospectionOfMinted | internal/oidc/server.go:422-431 | a minted token of either kind is active exactly until its exp has passed |
| Bearers.IntrospectionRepeats | internal/oidc/server.go:432-442 | for an unexpired access token the response repeats its claims |
| Bearers.IntrospectionExactly | internal/oidc/server.go:406-443 | for every text: active exactly if it is a token of the signer that has not expired, and then its claims are repeated; otherwise active is false and nothing else is said |
| Servers.Server.CheckAuthorize | internal/oidc/server.go:78-145 | the checks in their order decide as the decision function says, which Requests.DecideExactly characterises |
| Servers.Server.HandleAuthorize | internal/oidc/server.go:78-160 | the store takes the authorize step; the reply is the decision or the code handed out |
| Servers.Server.TakeCode | internal/oidc/server.go:267-273 | the first store operation of a code exchange is one Take of the protocol, in any state, and hands over exactly the grant that was there |
| Servers.Server.TakeRefresh | internal/oidc/server.go:294-299 | likewise for a refresh |
| Servers.Server.SettleCode | internal/oidc/server.go:274-292 | the rest of a code exchange is one Settle of the protocol from whatever state other requests have left, and its refusal is the one of the first failing check; the two defensive ones never occur |
| Servers.Server.SettleRefresh | internal/oidc/server.go:300-305 | likewise for a refresh |
| Servers.RejectionExactly | internal/oidc/server.go:274-305 | which check rejects a taken grant, each exactly when: another client, another redirect URI, a challenge that is not proved, no challenge and no authentication |
| Servers.Server.GrantAuthorizationCode | internal/oidc/server.go:267-292 | back to back: the store takes the two protocol steps, an unknown code is told so exactly if it is unknown, and otherwise the refusal is the one of the failing check |
| Servers.Server.GrantRefreshToken | internal/oidc/server.go:294-305 | likewise for refresh tokens |
| Servers.Server.TokenResponse | internal/oidc/server.go:322-351 | settles the grant; only a failing signer can prevent the response |
| Servers.TokenBodyFields | internal/oidc/server.go:341-350 | each field of a token response holds what it is named after, in this order |
| Servers.MachineAnswerSays | internal/oidc/server.go:307-320 | a machine client is answered exactly if its token can be signed, with access token, type, expires_in and canonical scope in this order, and the signed claims name it as subject, audience and client with these scopes |
| Servers.Server.HandleToken | internal/oidc/server.go:197-229 | the whole handler takes the protocol's steps and nothing else; a client that fails to authenticate, an unknown grant type, an unknown code or refresh token and a public client asking for a machine token are told exactly that, and a taken grant is answered or refused for its first failing check |

## Left out

- HTTP plumbing: methods, headers, form decoding, redirect URLs with their query, the state parameter, the HTML picker and the health probe; a request is an already decoded record.
- Cryptography: SHA-256, Ed25519, RSA, PEM loading and key thumbprints are parameters with the hypotheses named above.
- Library parsers: URLs, durations and RFC 3339 times are parameters; a float is represented by its literal, so two spellings of one float are different values, and its printed text is a parameter.
- Rounding in `Duration.Seconds`: expires_in is modelled as exact division.
- The command line, configuration files on disk, listening and shutdown.
- Error wording, including the rest of the line and the keys quoted in messages; only the kind of error, its data and its line are modelled.
- Discovery and JWKS documents, except claims_supported, and JSON indentation.
- `IsBareKey`, `PersonaNames` and `SortedClaimKeys`, which serve messages and listings only.
- Json.DecodeObject: follows the library's decoder on any text; what it reads is stated for the texts the encoder writes only.
- The JSON encoder for maps, and the depth limit of the decoder: minted objects hold scalars and flat arrays only.
- The aliasing of a persona's claims with the parsed tables: `Config.Load` works on the tree that the parser's tables are proved to be an image of.
- Constant-time comparison: equality is modelled, timing is not.
- Data races inside a handler: the steps of the protocol are the store operations, which the source guards with one mutex.
- TomlDocument.RoundTrip: covers trees whose tables sit at the root, under root keys by dotted keys, or in top-level arrays of tables, with at least one entry in each dotted sub-table; other trees of the format cannot be written by the printer.
