# SMS location check-in: a Dafny model

This project models the location check-in engine of the rakshak app. A brother keeps a list of his
sisters. He sends one of them a secret code by SMS. Her phone's responder (`SmsReceiver`) checks the
sender and keyword against her trusted list and answers with a Google Maps link to her position. The
brother's native receiver (`SisterSmsReceiver`) turns the reply into a location record. It stores the
record in `SisterPrefs` under several keys and emits it to JavaScript. There the sister-detail screen
reconciles it with AsyncStorage, the native store and what is on screen.

The model covers:

- phone matching in its three forms (module `Phones`);
- the two independent location-text parsers, JavaScript (`JsLocation`) and Java (`JavaLocation`).
  Both are written as leftmost-match scans over decimal coordinate tokens (`Numbers`, `Patterns`,
  `Scan`). Floating point is not used;
- the round trip from the responder's reply text through both parsers (`RoundTrip`);
- the native receiver's record building and keyed saves (`SisterReceiver`);
- the responder's trigger decision (`Responder`);
- the two key-value stores: `NativePrefs` for `SisterPrefs` and `ResponderSettings`, and
  `LocalStorage` for AsyncStorage;
- the sister-detail screen:
  - as pure rules over a session value (`DetailRules`, with properties in `DetailProperties`);
  - as a class that updates its fields and both stores in place and is proved to follow those rules
    (`DetailScreen.SisterDetail`);
- the four list screens:
  - the sister's trusted senders (`TrustedSenders`);
  - the brother's sister contacts (`SisterContacts`);
  - the older trusted-numbers screen (`TrustedNumbers`);
  - the older in-memory sister roster (`SisterRoster`);
- the list operations the screens share (`Lists`).

Stored JSON text is modelled as `Json<T>`: either the value it decodes to, or `Malformed` when
`JSON.parse` or `new JSONArray` would throw. The clock, the SMS permission, the outcome of sending an
SMS, whether a native module is present, and the order in which `getAllKeys` lists keys are all
parameters.

## Model

| member | source | states |
|---|---|---|
| Phones.NormalizePhone | src/screens/brother/SisterDetail.js:163-164 | the result holds only digits and is never longer than the input; a digit string is returned unchanged |
| Phones.NormalizeIdempotent | src/screens/brother/SisterDetail.js:163-164 | normalising twice is normalising once |
| Phones.NormalizeAppend | src/screens/brother/SisterDetail.js:163-164 | the digits of a concatenation are the digits of each piece, concatenated in order |
| Phones.NormalizeNoDigits | src/screens/brother/SisterDetail.js:163-164 | text without digits normalises to the empty string |
| Phones.NormalizeNumber | android/app/src/main/java/com/sis/SisterSmsReceiver.java:227-230 | `null` gives the empty string; otherwise exactly the digits of the text, in order |
| Phones.PhonesMatch | src/screens/brother/SisterDetail.js:164-169 | `phonesMatch`: the empty-digits guard, then equality, either suffix, or either containment of the digit strings; its meaning is stated by `PhonesMatchIsContainment` |
| Phones.PhonesMatchIsContainment | src/screens/brother/SisterDetail.js:165-169 | `phonesMatch` holds iff both sides have digits and one digit string contains the other; the equality and suffix tests add nothing |
| Phones.PhonesMatchSymmetric | src/screens/brother/SisterDetail.js:165-169 | `phonesMatch(a, b) == phonesMatch(b, a)` |
| Phones.PhonesMatchReflexive | src/screens/brother/SisterDetail.js:165-169 | a number matches itself iff it holds a digit |
| Phones.PhonesMatchNeedsDigits | src/screens/brother/SisterDetail.js:166-167 | a number without digits matches nothing, on either side |
| Phones.SenderMatchesSister | android/app/src/main/java/com/sis/SisterSmsReceiver.java:105-108 | the native matcher: the four tests on the two digit strings, with no guard on the sender; stated by `SenderMatchAgrees` and `EmptySenderMatchesAll` |
| Phones.EmptySenderMatchesAll | android/app/src/main/java/com/sis/SisterSmsReceiver.java:105-108 | the native matcher has no empty-sender guard: an empty normalised sender matches every phone |
| Phones.SenderMatchAgrees | android/app/src/main/java/com/sis/SisterSmsReceiver.java:105-108 | when both numbers have digits, the native matcher and `phonesMatch` agree |
| Phones.RawMatchImpliesPhonesMatch | android/app/src/main/java/com/sis/SmsReceiver.java:57 | whenever the responder's raw `sender.contains(phone)` holds for a phone with digits, `phonesMatch` holds too |
| Phones.RawMatchStricter | android/app/src/main/java/com/sis/SmsReceiver.java:57 | the converse fails: "12" and "1-2" match by digits but not by the raw test |
| Records.GoogleMapsUrl | src/screens/brother/SisterDetail.js:558 | the link starts with `https://maps.google.com/?q=` and has the length of the prefix, both numbers and a comma |
| Records.HasCoordsOrUrl | src/screens/brother/SisterDetail.js:205-210 | a record has a location when both coordinates are present (0 counts) or the link is non-empty; used by `UsefulRecordKept` and `PollStopsOnRecord` |
| Records.IsSameCoord | src/screens/brother/SisterDetail.js:438-445 | two records name the same location: equal coordinates, or else equal non-empty links; stated by the three lemmas below |
| Records.IsSameCoordSelf | src/screens/brother/SisterDetail.js:438-445 | `isSameCoord(r, r)` holds iff the record has both coordinates (0 counts) or a non-empty link |
| Records.IsSameCoordSymmetric | src/screens/brother/SisterDetail.js:438-445 | `isSameCoord` does not depend on argument order |
| Records.IsSameCoordHasLocation | src/screens/brother/SisterDetail.js:438-445 | two records that are the same location both satisfy `hasCoordsOrUrl` |
| Records.Enrich | src/screens/brother/SisterDetail.js:108-110 | a parser result completed with text and time has a location iff it had coordinates or a non-empty link; the coordinates are kept; a bare link has none |
| Numbers.Normalize | src/screens/brother/SisterDetail.js:556-557 | the value of a decimal token is written in canonical form and keeps its sign |
| Numbers.NormalizeDropsOnlyZeros | src/screens/brother/SisterDetail.js:556-557 | the canonical form drops only leading zeros of the integer part and trailing zeros of the fraction |
| Numbers.NormalizeCanonical | src/screens/brother/SisterDetail.js:556-557 | a canonical token is its own normal form |
| Numbers.ParseFloat | src/screens/brother/SisterDetail.js:556 | `parseFloat` on number texts: the longest readable prefix, NaN (none) when there is none; every value it gives is canonical, and `ParseFloatLenient` and `LoneMinusIsNaN` state where it differs from `Double.parseDouble` |
| Numbers.ParseDouble | android/app/src/main/java/com/sis/SisterSmsReceiver.java:165-166 | whatever `Double.parseDouble` accepts is canonical, and `parseFloat` reads it the same |
| Numbers.ParseFloatLenient | src/screens/brother/SisterDetail.js:556 | for any text made of a number with a point and a tail that does not start with a digit (as in "1.5.2"), `parseFloat` reads the number where `Double.parseDouble` throws |
| Numbers.LoneMinusIsNaN | src/screens/brother/SisterDetail.js:556-558 | a lone "-" is NaN for `parseFloat` and throws for `Double.parseDouble` |
| Numbers.NoDigitIsNaN | src/screens/brother/SisterDetail.js:556-557 | text without a digit is NaN for `parseFloat` and throws for `Double.parseDouble` |
| Numbers.JavaDoubleTextParses | android/app/src/main/java/com/sis/LocationHelper.java:31-33 | Java's text of a number reads back as that number, by both readers |
| Numbers.JsNumberTextParses | src/screens/brother/SisterDetail.js:558 | JavaScript's text of a number other than -0 reads back as that number, by both readers |
| Numbers.JavaPlainRange | android/app/src/main/java/com/sis/LocationHelper.java:33 | the values `"" + x` prints without an exponent: zero, or a magnitude of at least 1e-3 and below 1e7 |
| Numbers.JsPlainRange | src/screens/brother/SisterDetail.js:558 | the values `${x}` prints without an exponent: zero, or a magnitude of at least 1e-6 and below 1e21 |
| Scan.RunEnd | android/app/src/main/java/com/sis/SisterSmsReceiver.java:162 | a greedy character-class run ends at the first character outside the class |
| Scan.FirstMatch | src/screens/brother/SisterDetail.js:552 | the match found is at the leftmost position where the pattern matches; none is found only when it matches nowhere |
| Scan.FirstIndex | src/screens/brother/SisterDetail.js:377-398 | the index of the first element satisfying the test; none only when no element does |
| Patterns.TokenEnd | src/screens/brother/SisterDetail.js:563 | a `-?\d{1,3}\.\d+` (or `-?\d+\.\d+`) token is non-empty, made of number characters, and not followed by a digit |
| Patterns.TokenEndReads | src/screens/brother/SisterDetail.js:563 | every token the reader matches reads as a number with `Double.parseDouble` (and so with `parseFloat`) |
| Patterns.TokenTextReads | src/screens/brother/SisterDetail.js:579 | the text of a token (optional `-`, digits, a point, digits) reads back as that token's value |
| Patterns.DecimalPairAt | src/screens/brother/SisterDetail.js:571 | a decimal-pair match contains a `,` or `;` separator |
| Patterns.SecondToken | android/app/src/main/java/com/sis/SisterSmsReceiver.java:186 | the separator part of the decimal pair: a `,` or `;` lies between the two tokens, and the second token ends where the token reader says |
| Patterns.NoSeparatorNoPair | android/app/src/main/java/com/sis/SisterSmsReceiver.java:186 | text made only of number characters, `!` and `d` holds no decimal-pair match |
| Patterns.DecimalPairReads | android/app/src/main/java/com/sis/SisterSmsReceiver.java:188-190 | both numbers a decimal-pair match captures read, so `Double.parseDouble` cannot throw there |
| Patterns.EmbedAt | src/screens/brother/SisterDetail.js:579 | an embed match starts with `!2d` |
| Patterns.EmbedAtStart | android/app/src/main/java/com/sis/SisterSmsReceiver.java:198 | `!2d` X `!3d` Y, with X and Y token texts, matches at its start and captures X and Y in that order |
| Patterns.EmbedReads | android/app/src/main/java/com/sis/SisterSmsReceiver.java:198-202 | both numbers an embed match captures read, so `Double.parseDouble` cannot throw there |
| Patterns.DecimalPairAtStart | android/app/src/main/java/com/sis/SisterSmsReceiver.java:186 | X `,` Y, with X and Y token texts of at most three whole digits, matches at its start and captures X and Y in that order, whichever language's `\s` is used |
| Patterns.NoDigitNoToken | src/screens/brother/SisterDetail.js:563 | no token starts anywhere in text without a digit |
| Patterns.NoDigitNoDecimalPair | android/app/src/main/java/com/sis/SisterSmsReceiver.java:186 | no decimal pair starts anywhere in text without a digit |
| Patterns.NoDigitNoEmbed | android/app/src/main/java/com/sis/SisterSmsReceiver.java:198 | no embed fragment starts anywhere in text without a digit |
| Patterns.NoHttpNoUrl | src/screens/brother/SisterDetail.js:587 | no URL starts anywhere in text that holds `http` in no case |
| Patterns.UrlAt | src/screens/brother/SisterDetail.js:587 | a URL match is `http(s)://` plus at least one character, and runs up to whitespace or the end |
| JsLocation.Clean | src/screens/brother/SisterDetail.js:549 | removing smart quotes, trailing `.,)]` and surrounding space never lengthens the text |
| JsLocation.CleanKeeps | src/screens/brother/SisterDetail.js:549 | text with no smart quote, no surrounding space and no trailing punctuation is left as it is |
| JsLocation.QueryAt | src/screens/brother/SisterDetail.js:552 | a `q=` match starts at `?` or `&` |
| JsLocation.QueryCoordinates | src/screens/brother/SisterDetail.js:552-560 | the `q=` strategy can give coordinates only when the cleaned text holds a `?` or `&` |
| JsLocation.AtPairAt | src/screens/brother/SisterDetail.js:563 | an `@` match starts at `@` |
| JsLocation.CommaToken | src/screens/brother/SisterDetail.js:563 | the rest of an `@` match: a `,` right after the first token, and a second token that ends where the token reader says |
| JsLocation.ParseLocationFromText | src/screens/brother/SisterDetail.js:547-596 | empty text gives nothing; every coordinate result carries the link rebuilt from its own numbers; a link-only result names a map host |
| JsLocation.NoEarlierMatch | src/screens/brother/SisterDetail.js:552-575 | in `!2d` X `!3d` Y the `q=`, `@` and decimal-pair patterns match nowhere |
| JsLocation.EmbedGivesLatThenLon | src/screens/brother/SisterDetail.js:547-584 | `!2d` X `!3d` Y parses to latitude Y and longitude X, with the link rebuilt from them |
| JsLocation.NoQuery | src/screens/brother/SisterDetail.js:552 | without a `?` or `&` the `q=` strategy gives nothing |
| JsLocation.NoAtPair | src/screens/brother/SisterDetail.js:563 | without an `@` the `@` pattern matches nowhere |
| JsLocation.PairIsClean | src/screens/brother/SisterDetail.js:549 | a bare or `@` pair has nothing for the cleaning to remove |
| JsLocation.AtPairAtStart | src/screens/brother/SisterDetail.js:563 | `@` X `,` Y, with short token texts X and Y, matches at its start and captures X and Y in that order |
| JsLocation.AtPairReads | src/screens/brother/SisterDetail.js:563-567 | the `@` strategy reads `@` X `,` Y as latitude X and longitude Y |
| JsLocation.AtGivesLatThenLon | src/screens/brother/SisterDetail.js:547-567 | `@` X `,` Y parses to latitude X and longitude Y, with the link rebuilt from them |
| JsLocation.DecimalPairJsPair | src/screens/brother/SisterDetail.js:571-575 | the decimal-pair strategy reads X `,` Y as latitude X and longitude Y |
| JsLocation.PairGivesLatThenLon | src/screens/brother/SisterDetail.js:547-575 | a bare X `,` Y parses to latitude X and longitude Y, with the link rebuilt from them |
| JsLocation.CleanNoDigit | src/screens/brother/SisterDetail.js:549 | cleaning brings in no digit |
| JsLocation.NoDigitNoQuery | src/screens/brother/SisterDetail.js:552-560 | without a digit the `q=` strategy gives nothing: the first part does not read |
| JsLocation.NoDigitNoPairs | src/screens/brother/SisterDetail.js:563-584 | without a digit the `@`, decimal-pair and embed patterns match nowhere |
| JsLocation.NoDigitNoLocation | src/screens/brother/SisterDetail.js:547-595 | text without a digit gives null unless the cleaned text holds `http` in some case (removing smart quotes can join one) |
| JavaLocation.QueryPairAt | android/app/src/main/java/com/sis/SisterSmsReceiver.java:162 | a `q=` match starts at `?` or `&` and captures two non-empty runs |
| JavaLocation.AtPairAt | android/app/src/main/java/com/sis/SisterSmsReceiver.java:174 | an `@` match starts at `@` |
| JavaLocation.CommaToken | android/app/src/main/java/com/sis/SisterSmsReceiver.java:174 | the rest of an `@` match: optional spaces, a `,`, optional spaces, and a second token that ends where the token reader says |
| JavaLocation.AtJavaReads | android/app/src/main/java/com/sis/SisterSmsReceiver.java:174-178 | both numbers an `@` match captures read, so `Double.parseDouble` cannot throw there |
| JavaLocation.ReadPair | android/app/src/main/java/com/sis/SisterSmsReceiver.java:164-169 | a strategy reports no match iff its pattern did not match, and fails iff a captured number does not read |
| JavaLocation.FirstUrl | android/app/src/main/java/com/sis/SisterSmsReceiver.java:210-213 | the first URL, stripped of trailing `.,)`, is never empty |
| JavaLocation.MapLinkOf | android/app/src/main/java/com/sis/SisterSmsReceiver.java:210-220 | the URL strategy gives only a link-only result, and only for a map host |
| JavaLocation.TryParseLocation | android/app/src/main/java/com/sis/SisterSmsReceiver.java:159-225 | `null` gives nothing; a coordinate result carries the link rebuilt from Java's text of its numbers; a link-only result names a map host; a `q=` match with an unreadable number gives nothing |
| JavaLocation.OnlyQueryCanFail | android/app/src/main/java/com/sis/SisterSmsReceiver.java:174-208 | the `@`, decimal-pair and embed strategies can never throw, because their tokens always read |
| JavaLocation.MalformedQueryAbandons | android/app/src/main/java/com/sis/SisterSmsReceiver.java:159-224 | `?q=-,1` followed by any text gives null, even when a good `@` pair follows: the exception aborts the whole parse |
| JavaLocation.NoEarlierMatch | android/app/src/main/java/com/sis/SisterSmsReceiver.java:162-196 | in `!2d` X `!3d` Y the `q=`, `@` and decimal-pair patterns match nowhere |
| JavaLocation.EmbedGivesLatThenLon | android/app/src/main/java/com/sis/SisterSmsReceiver.java:159-208 | `!2d` X `!3d` Y parses to latitude Y and longitude X (the first group is the longitude), with the link rebuilt from them |
| JavaLocation.NoQueryPair | android/app/src/main/java/com/sis/SisterSmsReceiver.java:162-164 | without a `?` or `&` the `q=` pattern matches nowhere |
| JavaLocation.NoAtPair | android/app/src/main/java/com/sis/SisterSmsReceiver.java:174-176 | without an `@` the `@` pattern matches nowhere |
| JavaLocation.AtPairAtStart | android/app/src/main/java/com/sis/SisterSmsReceiver.java:174 | `@` X `,` Y, with short token texts X and Y, matches at its start and captures X and Y in that order |
| JavaLocation.AtPairReads | android/app/src/main/java/com/sis/SisterSmsReceiver.java:174-178 | the `@` strategy reads `@` X `,` Y as latitude X and longitude Y |
| JavaLocation.AtGivesLatThenLon | android/app/src/main/java/com/sis/SisterSmsReceiver.java:159-184 | `@` X `,` Y parses to latitude X and longitude Y, with the link rebuilt from Java's text of them |
| JavaLocation.DecimalPairJavaPair | android/app/src/main/java/com/sis/SisterSmsReceiver.java:186-190 | the decimal-pair strategy reads X `,` Y as latitude X and longitude Y |
| JavaLocation.PairGivesLatThenLon | android/app/src/main/java/com/sis/SisterSmsReceiver.java:159-196 | a bare X `,` Y parses to latitude X and longitude Y, with the link rebuilt from them |
| JavaLocation.NoDigitQueryFails | android/app/src/main/java/com/sis/SisterSmsReceiver.java:162-166 | without a digit the `q=` strategy never gives coordinates: it matches nowhere, or its first number throws |
| JavaLocation.NoDigitNoPairs | android/app/src/main/java/com/sis/SisterSmsReceiver.java:174-202 | without a digit the `@`, decimal-pair and embed patterns match nowhere |
| JavaLocation.NoDigitNoLocation | android/app/src/main/java/com/sis/SisterSmsReceiver.java:159-225 | text with no digit and no `http` in any case gives null |
| RoundTrip.ReplyText | android/app/src/main/java/com/sis/LocationHelper.java:33-34 | the reply sentence followed by the link built from Java's text of the two numbers; its reading back is stated by `JavaReadsReply` and `JsReadsReply` |
| RoundTrip.JavaQueryMatch | android/app/src/main/java/com/sis/SisterSmsReceiver.java:162 | in a reply `P + https://maps.google.com/?q=A,B`, the first `q=` match is the one in the link and captures A and B |
| RoundTrip.JavaReadsQuery | android/app/src/main/java/com/sis/SisterSmsReceiver.java:162-171 | such a text with readable A and B parses to exactly those coordinates |
| RoundTrip.JsReadsQuery | src/screens/brother/SisterDetail.js:547-560 | the JavaScript parser reads the same text as the same coordinates |
| RoundTrip.SplitPair | src/screens/brother/SisterDetail.js:554 | `"A,B".split(',')` is `[A, B]` for number texts |
| RoundTrip.JavaReadsReply | android/app/src/main/java/com/sis/LocationHelper.java:33-34 | for values Java prints without an exponent (zero, or a magnitude of at least 1e-3 and below 1e7), the responder's reply text is parsed by the receiver to exactly the coordinates it was built from |
| RoundTrip.JsReadsReply | src/screens/brother/SisterDetail.js:547-560 | in the same range, the screen's parser reads the reply text as the same coordinates |
| RoundTrip.JavaLinkFixedPoint | android/app/src/main/java/com/sis/SisterSmsReceiver.java:168 | in the same range, parsing the link of a parsed location gives the same location back |
| RoundTrip.JsLinkFixedPoint | src/screens/brother/SisterDetail.js:558 | the same for the JavaScript parser, for numbers other than -0 that JavaScript prints without an exponent (zero, or a magnitude of at least 1e-6 and below 1e21) |
| SisterReceiver.FirstSender | android/app/src/main/java/com/sis/SisterSmsReceiver.java:51-58 | the sender is the first non-null address; there is none only when every address is null |
| SisterReceiver.JoinBodiesAppend | android/app/src/main/java/com/sis/SisterSmsReceiver.java:51-58 | the joined body of two runs of parts is the two joined bodies, in order |
| SisterReceiver.JoinBodiesSingle | android/app/src/main/java/com/sis/SisterSmsReceiver.java:51-58 | a single part's joined body is its body, or empty for null |
| SisterReceiver.CombineParts | android/app/src/main/java/com/sis/SisterSmsReceiver.java:51-58 | the loop returns the first non-null sender and the in-order concatenation of non-null bodies |
| SisterReceiver.BuildRecord | android/app/src/main/java/com/sis/SisterSmsReceiver.java:64-87 | the record keeps the raw body and the time; `parsed` is set iff a link was stored; it has coordinates iff the parser found them; a parsed record always has a location |
| SisterReceiver.SenderKeys | android/app/src/main/java/com/sis/SisterSmsReceiver.java:90-95 | the keys are the raw sender when non-null and its digits when non-empty, and nothing else |
| SisterReceiver.MatchingSister | android/app/src/main/java/com/sis/SisterSmsReceiver.java:98-124 | the matched sister is the first in the decodable list whose digits relate to the sender's digits; none only when no sister matches |
| SisterReceiver.SisterKeys | android/app/src/main/java/com/sis/SisterSmsReceiver.java:110-114 | the matched sister gives two keys, her phone as stored and its digits; no match gives none |
| SisterReceiver.SavedUnder | android/app/src/main/java/com/sis/SisterSmsReceiver.java:90-114 | after the writes every listed key holds the record and every other key keeps its value |
| SisterReceiver.SavedUnderAppend | android/app/src/main/java/com/sis/SisterSmsReceiver.java:90-114 | writing two key lists in turn equals writing their concatenation |
| SisterReceiver.EventOf | android/app/src/main/java/com/sis/SisterSmsReceiver.java:133-141 | the event carries `from` (empty for null), the body and the flag, plus the location fields exactly when parsed |
| SisterReceiver.SaveUnderSender | android/app/src/main/java/com/sis/SisterSmsReceiver.java:90-95 | the sender writes change the store exactly as `SavedUnder` the sender keys |
| SisterReceiver.SaveUnderSister | android/app/src/main/java/com/sis/SisterSmsReceiver.java:98-124 | the loop with `break` writes exactly the first matching sister's two keys |
| SisterReceiver.FindSister | android/app/src/main/java/com/sis/SisterSmsReceiver.java:101-120 | the loop finds the first sister whose phone matches the sender, and no earlier one matches; when it finds none, no sister matches |
| SisterReceiver.FirstMatchingSister | android/app/src/main/java/com/sis/SisterSmsReceiver.java:107-116 | the keys come from the first sister that matches, whatever follows her |
| SisterReceiver.OnReceive | android/app/src/main/java/com/sis/SisterSmsReceiver.java:34-156 | another action or no parts changes nothing and emits nothing; otherwise the store is the old one with the record under every receive key, and the event is emitted when JavaScript is attached |
| SisterReceiver.EmptySenderTakesFirstWithDigits | android/app/src/main/java/com/sis/SisterSmsReceiver.java:99-117 | with a sender without digits, the first sister whose phone has digits is matched |
| SisterReceiver.ReceiverRecordsReply | android/app/src/main/java/com/sis/SisterSmsReceiver.java:64-87 | for values Java prints without an exponent, the responder's reply is saved flagged parsed, with the coordinates it was built from |
| Responder.Triggers | android/app/src/main/java/com/sis/SmsReceiver.java:54-58 | an entry triggers when its phone and keyword are non-empty, the raw sender contains the phone and the upper-cased body contains the upper-cased keyword; stated by `ReplyTo` and `RepliesGoToTrustedSenders` |
| Responder.ReplyTo | android/app/src/main/java/com/sis/SmsReceiver.java:37-73 | a PDU gets a reply iff the list decodes and some entry has a non-empty phone the raw sender contains and a non-empty keyword the upper-cased body contains; the reply goes to the sender |
| Responder.Replies | android/app/src/main/java/com/sis/SmsReceiver.java:28-65 | at most one reply per PDU |
| Responder.RepliesAppend | android/app/src/main/java/com/sis/SmsReceiver.java:28-65 | each PDU is decided on its own: the replies to two batches are the two reply lists |
| Responder.NoListNoReplies | android/app/src/main/java/com/sis/SmsReceiver.java:37-42 | a missing or undecodable trusted list sends nothing |
| Responder.RepliesGoToTrustedSenders | android/app/src/main/java/com/sis/SmsReceiver.java:57-61 | every reply goes to a sender that contains a trusted phone |
| Responder.MatchEntries | android/app/src/main/java/com/sis/SmsReceiver.java:46-65 | the inner loop with `break` reports a match iff some entry triggers |
| Responder.OnReceive | android/app/src/main/java/com/sis/SmsReceiver.java:21-78 | another action or a missing PDU array sends nothing; otherwise the replies are those of `Replies`, in PDU order |
| NativePrefs.SisterPrefs.LastLocation | android/app/src/main/java/com/sis/SisterSettingsModule.java:62 | the value under `lastLocation_<phone>` exactly when that key is present |
| NativePrefs.SisterPrefs.SetSisterList | android/app/src/main/java/com/sis/SisterSettingsModule.java:38-40 | the whole list is replaced; location entries are untouched |
| NativePrefs.SisterPrefs.GetSisterList | android/app/src/main/java/com/sis/SisterSettingsModule.java:42-50 | resolves to the stored list, or to nothing if it was never set |
| NativePrefs.SisterPrefs.SetLastLocation | android/app/src/main/java/com/sis/SisterSettingsModule.java:52-56 | a null phone changes nothing; otherwise that phone's entry becomes the value, and every other entry and the list are unchanged |
| NativePrefs.SisterPrefs.GetLastLocation | android/app/src/main/java/com/sis/SisterSettingsModule.java:58-67 | a null phone resolves to nothing; otherwise to the entry the setter and the receiver write |
| NativePrefs.ResponderPrefs.SetTrustedList | android/app/src/main/java/com/sis/SettingsModule.java:29-32 | the trusted list is replaced |
| LocalStorage.AsyncStore.SetLocation | src/screens/brother/SisterDetail.js:174 | only the entry for that key changes |
| LocalStorage.AsyncStore.RemoveLocation | src/screens/brother/SisterDetail.js:196 | only the entry for that key is removed |
| DetailRules.StripPlus | src/screens/brother/SisterDetail.js:375 | one leading `+` is removed, and nothing else changes |
| DetailRules.Candidates | src/screens/brother/SisterDetail.js:372-376 | the keys tried are, in order, the phone as stored, its digits, and the phone without a leading `+` |
| DetailRules.NativeRecord | src/screens/brother/SisterDetail.js:377-398 | the record of the first candidate that is non-empty, present and decodable; none only when no candidate is |
| DetailRules.VariantKey | src/screens/brother/SisterDetail.js:233-251 | the scan finds a present stored key that matches the phone; it finds none only when no present key matches |
| DetailRules.SecretCode | src/screens/brother/SisterDetail.js:332-341 | the sister's own code wins; otherwise the non-empty `secretCodes` entry under the phone as stored, else under its digits; empty exactly when neither exists or the table does not decode |
| DetailRules.Refresh | src/screens/brother/SisterDetail.js:366-403 | the native refresh never touches the poll or the native store; which record it adopts is stated by `RefreshAdoption` and `RefreshCopies` |
| DetailRules.RefreshIfNewer | src/screens/brother/SisterDetail.js:406-436 | the "if newer" refresh; stated by `RefreshIfNewerAdoption` and `RefreshIfNewerOnlyTouchesPhone` |
| DetailRules.PersistAndSet | src/screens/brother/SisterDetail.js:171-187 | the record goes to both stores (the native one only with the module) and to the screen; stated by `PersistAndSetOnlyTouchesPhone` |
| DetailRules.RemoveRaw | src/screens/brother/SisterDetail.js:189-203 | a stored record without a location is deleted and the screen cleared; stated by `UsefulRecordKept` and `RemoveRawOnlyTouchesPhone` |
| DetailRules.ApplyEvent | src/screens/brother/SisterDetail.js:83-134 | the fresh-event branches; stated by `ApplyOnlyTouchesPhone` and `UnparsedApply` |
| DetailRules.OnEvent | src/screens/brother/SisterDetail.js:50-137 | the event handler; stated by `EventOnlyTouchesPhone`, `OtherSisterIgnored`, `StaleEventOnlyCopiesNative` and `UnparsedEventCreatesNothing` |
| DetailRules.Load | src/screens/brother/SisterDetail.js:213-279 | the load never touches the poll or the native store; what it copies is stated by `LoadCopiesToDirectKey` and `LoadAbortsOnMalformedDirect` |
| DetailRules.LoadVariant | src/screens/brother/SisterDetail.js:232-276 | the key scan and its fall-through never touch the poll or the native store |
| DetailRules.LoadNative | src/screens/brother/SisterDetail.js:254-278 | the native fallback of the load never touches the poll or the native store |
| DetailRules.PollTick | src/screens/brother/SisterDetail.js:285-327 | one tick of the interval; stated by `PollTimeoutWritesNothing`, `PollOutcomes` and `PollStopsOnRecord` |
| DetailRules.PollDecoded | src/screens/brother/SisterDetail.js:294-322 | the tick that finds a decodable record; stated by `PollStopsOnRecord` |
| DetailRules.TryParseShown | src/screens/brother/SisterDetail.js:522-532 | the "Try Parse Message" button; its cases are stated by `DetailScreen.TryParseCases` |
| DetailRules.LoadSetsShown | src/screens/brother/SisterDetail.js:213-279 | whether the load calls `setLastLocation`: a decodable record under the direct key, under the scan's first matching key, or among the native candidates |
| DetailRules.Rerun | src/screens/brother/SisterDetail.js:42-47 | the effect run after a `setLastLocation`: its cleanup (:139-142) stops the poll, and the load that follows leaves the native store and the poll start time alone |
| DetailRules.Reruns | src/screens/brother/SisterDetail.js:42-143 | the effect keyed on `lastLocation` run `n` times in a row |
| DetailRules.EffectAfter | src/screens/brother/SisterDetail.js:143 | the corrected effect: a step that leaves the record on screen as it was runs nothing more; one that changes it stops the poll |
| DetailRules.Check | src/screens/brother/SisterDetail.js:331-363 | an SMS is attempted iff a code exists and permission is granted, to the sister's phone with that code; no store or screen record changes; polling starts iff the send succeeds; an alert is raised iff no send succeeded |
| DetailProperties.RefreshOnlyTouchesPhone | src/screens/brother/SisterDetail.js:366-403 | the native refresh writes only the sister's own AsyncStorage key and never the native store |
| DetailProperties.RefreshIfNewerOnlyTouchesPhone | src/screens/brother/SisterDetail.js:406-436 | the same for the "if newer" refresh |
| DetailProperties.PersistAndSetOnlyTouchesPhone | src/screens/brother/SisterDetail.js:171-187 | `persistAndSet` writes only the sister's key, in both stores |
| DetailProperties.RemoveRawOnlyTouchesPhone | src/screens/brother/SisterDetail.js:189-203 | `removeRawMessageStored` removes at most the sister's key and never touches the native store |
| DetailProperties.ApplyOnlyTouchesPhone | src/screens/brother/SisterDetail.js:83-134 | the fresh-event branches write only the sister's key |
| DetailProperties.EventOnlyTouchesPhone | src/screens/brother/SisterDetail.js:50-137 | every write of the event handler goes to the sister's own key, in either store |
| DetailProperties.OtherSisterIgnored | src/screens/brother/SisterDetail.js:64-71 | an event whose `canonicalPhone` and `from` both fail to match the sister changes nothing |
| DetailProperties.StaleEventOnlyCopiesNative | src/screens/brother/SisterDetail.js:73-80 | a stale event never saves its own payload and the handler leaves the poll alone: either nothing changes, or a native record at least as new is copied and shown (after which the effect stops the poll, `ShownChangeStopsPoll`) |
| DetailProperties.UsefulRecordKept | src/screens/brother/SisterDetail.js:189-203 | a stored record with coordinates or a link is never deleted |
| DetailProperties.UnparsedEventCreatesNothing | src/screens/brother/SisterDetail.js:104-134 | an event whose text does not parse creates no record: afterwards the sister's key holds what it held, nothing, or a native record |
| DetailProperties.NoNativeHitNoRefresh | src/screens/brother/SisterDetail.js:366-436 | without the native module or a native hit, neither refresh changes anything |
| DetailProperties.RefreshAdoption | src/screens/brother/SisterDetail.js:377-393 | the native record is adopted (copied and shown) iff nothing is on screen, the screen record has no timestamp, the native one is strictly newer, or the locations differ |
| DetailProperties.RefreshIfNewerAdoption | src/screens/brother/SisterDetail.js:414-427 | the "if newer" refresh adopts iff the native timestamp is at least the incoming one |
| DetailProperties.RefreshSettles | src/screens/brother/SisterDetail.js:366-403 | refreshing against what a refresh has just shown changes nothing more |
| DetailProperties.PollTimeoutWritesNothing | src/screens/brother/SisterDetail.js:287-291 | after 60 s a tick only stops the poll, with the timeout status |
| DetailProperties.PollOutcomes | src/screens/brother/SisterDetail.js:282-328 | a tick either keeps waiting with nothing changed, or stops with one of the four outcomes |
| DetailProperties.PollStopsOnRecord | src/screens/brother/SisterDetail.js:294-322 | within the timeout a decodable record always ends the poll; a record without location whose text does not parse is deleted |
| DetailProperties.LoadCopiesToDirectKey | src/screens/brother/SisterDetail.js:213-279 | loading never writes the native store, and any record it copies goes to the sister's own key and is shown |
| DetailProperties.LoadAbortsOnMalformedDirect | src/screens/brother/SisterDetail.js:216-230 | an undecodable value under the sister's key stops the load with nothing changed |
| DetailProperties.ShownChangeStopsPoll | src/screens/brother/SisterDetail.js:139-142 | after any `setLastLocation` the effect leaves the poll stopped, and no later tick changes anything until "Check" starts a new one |
| DetailProperties.DirectRerun | src/screens/brother/SisterDetail.js:213-230 | with a decodable record under the direct key, the effect shows it unless the native refresh adopts the first native record against what was on screen before, and the direct key then holds what is shown |
| DetailProperties.ReloadNeverSettles | src/screens/brother/SisterDetail.js:143 | as written, once the direct key holds a decodable record, after any number of effect runs it still does, so the next load calls `setLastLocation` again and the poll stays stopped |
| DetailProperties.RerunSettles | src/screens/brother/SisterDetail.js:143 | with the dependency compared by value, the third load changes neither the record on screen nor the stored entries, so the effect runs no more |
| DetailProperties.TryParseOnlyTouchesPhone | src/screens/brother/SisterDetail.js:522-532 | the button writes only the sister's key in either store and never the poll; it alerts exactly when no message is on screen, and then changes nothing; a parsed message is saved under the sister's key and shown |
| DetailScreen.NativeRecordAt | src/screens/brother/SisterDetail.js:377-398 | the first native hit found by the loop is the record `NativeRecord` names |
| DetailScreen.SisterDetail.PersistAndSet | src/screens/brother/SisterDetail.js:171-187 | the screen and both stores change exactly as `DetailRules.PersistAndSet` says |
| DetailScreen.SisterDetail.RemoveRawMessageStored | src/screens/brother/SisterDetail.js:189-203 | exactly as `DetailRules.RemoveRaw` |
| DetailScreen.SisterDetail.RefreshFromNative | src/screens/brother/SisterDetail.js:366-403 | the candidate loop changes the state exactly as `DetailRules.Refresh` |
| DetailScreen.SisterDetail.RefreshFromNativeIfNewer | src/screens/brother/SisterDetail.js:406-436 | exactly as `DetailRules.RefreshIfNewer` |
| DetailScreen.SisterDetail.ApplyFreshEvent | src/screens/brother/SisterDetail.js:83-134 | exactly as `DetailRules.ApplyEvent` |
| DetailScreen.SisterDetail.OnEvent | src/screens/brother/SisterDetail.js:50-137 | exactly as `DetailRules.OnEvent` |
| DetailScreen.SisterDetail.Load | src/screens/brother/SisterDetail.js:213-279 | the direct key, the key scan and the native loop change the state exactly as `DetailRules.Load` |
| DetailScreen.SisterDetail.RerunEffect | src/screens/brother/SisterDetail.js:42-47 | the cleanup clears the poll and the effect loads again, exactly as `DetailRules.Rerun` |
| DetailScreen.SisterDetail.LoadVariant | src/screens/brother/SisterDetail.js:232-276 | the key scan stops at the first matching key, copies it when it decodes and otherwise falls through to the native loop, exactly as `DetailRules.LoadVariant` |
| DetailScreen.SisterDetail.LoadNative | src/screens/brother/SisterDetail.js:254-278 | the first native hit is copied to the direct key and shown; otherwise the status says nothing was found, exactly as `DetailRules.LoadNative` |
| DetailScreen.SisterDetail.FirstNativeRecord | src/screens/brother/SisterDetail.js:256-275 | the candidate loop returns the record of the first candidate that is non-empty and holds a decodable value, and changes nothing |
| DetailScreen.SisterDetail.StartPoll | src/screens/brother/SisterDetail.js:282-285 | the interval is (re)started now |
| DetailScreen.SisterDetail.PollTick | src/screens/brother/SisterDetail.js:285-327 | exactly as `DetailRules.PollTick` |
| DetailScreen.SisterDetail.PollFound | src/screens/brother/SisterDetail.js:298-322 | a record with text and no location is parsed and saved, or deleted; any other record is shown; polling stops in every case, exactly as `DetailRules.PollDecoded` |
| DetailScreen.SisterDetail.HandleCheck | src/screens/brother/SisterDetail.js:331-363 | the new state, the alert and the SMS are those of `DetailRules.Check` |
| DetailScreen.SisterDetail.TryParseMessage | src/screens/brother/SisterDetail.js:522-532 | the new state and the alert are those of `DetailRules.TryParseShown` |
| Lists.RemoveAt | src/screens/sister/SisterHome.js:128 | the element at the index goes and the rest keep their order; an index past the end removes nothing |
| Lists.RemoveAtMultiset | src/screens/brother/BrotherHome.js:97 | removing takes out exactly that one element, as a multiset |
| Lists.Filter | src/screens/SisterScreen.jsx:126 | the result is no longer than the list |
| Lists.FilterMembers | src/screens/SisterScreen.jsx:126 | the result holds exactly the elements of the list that the test keeps |
| Lists.FilterAppend | src/screens/SisterScreen.jsx:126 | filtering two joined lists gives the two filtered lists joined: order is kept |
| Lists.FilterKeepsAll | src/screens/SisterScreen.jsx:126 | a filter that keeps every element returns the list itself |
| Lists.FilterDropsAll | src/screens/BrotherHomeScreen.jsx:42 | a filter that keeps nothing returns the empty list |
| Lists.FilterLength | src/screens/BrotherHomeScreen.jsx:42 | the filter drops exactly as many elements as fail the test |
| TrustedSenders.EntryFrom | src/screens/sister/SisterHome.js:96-100 | an entry exists iff both trimmed fields are non-empty, and it holds the trimmed values |
| TrustedSenders.AddEntry | src/screens/sister/SisterHome.js:103-110 | rejected iff an entry has the identical phone; otherwise the entry is appended and earlier ones are unchanged |
| TrustedSenders.EditEntry | src/screens/sister/SisterHome.js:111-115 | exactly the entry at the index is replaced |
| TrustedSenders.AddKeepsUnique | src/screens/sister/SisterHome.js:103-110 | adding keeps phones unique |
| TrustedSenders.RemoveKeepsUnique | src/screens/sister/SisterHome.js:128 | removing keeps phones unique |
| TrustedSenders.EditCanDuplicate | src/screens/sister/SisterHome.js:111-115 | editing makes no uniqueness check and can give two entries the same phone |
| TrustedSenders.AddedEntryTriggersReply | src/screens/sister/SisterHome.js:59-78 | once saved to the native store, an added entry makes the responder reply to a matching message |
| TrustedSenders.SisterHome.Load | src/screens/sister/SisterHome.js:46-54 | a stored list that decodes is adopted; otherwise the list is unchanged |
| TrustedSenders.SisterHome.PersistList | src/screens/sister/SisterHome.js:59-78 | the list is saved locally and shown, and the same list goes to the native store when the module is there |
| TrustedSenders.SisterHome.SaveEntry | src/screens/sister/SisterHome.js:95-119 | blank fields or a duplicate phone on add alert and change nothing, in either store; a valid add appends; an edit replaces the entry at the index; both save the new list locally and, when the native module is there, as the responder's trusted list |
| TrustedSenders.SisterHome.Remove | src/screens/sister/SisterHome.js:121-133 | the entry at the index goes and the rest is saved locally; the responder's trusted list becomes the same list when the native module is there and is untouched otherwise |
| SisterContacts.ContactFrom | src/screens/brother/BrotherHome.js:68-74 | a contact exists iff the trimmed name and phone are non-empty; all three fields are trimmed; the code may be empty |
| SisterContacts.AddContact | src/screens/brother/BrotherHome.js:77-82 | rejected iff a sister has the identical phone; otherwise the contact is appended at the end |
| SisterContacts.AddKeepsInvariant | src/screens/brother/BrotherHome.js:67-88 | adding through the form keeps every contact named and phoned and all phones unique |
| SisterContacts.RemoveKeepsInvariant | src/screens/brother/BrotherHome.js:97 | removing keeps the same invariant |
| SisterContacts.BrotherHome.Load | src/screens/brother/BrotherHome.js:35-43 | the stored list, or the empty list when the key is missing or does not decode |
| SisterContacts.BrotherHome.SaveList | src/screens/brother/BrotherHome.js:45-65 | the list is stored under `sisters`, shown, and mirrored to the native list when the module is there |
| SisterContacts.BrotherHome.Add | src/screens/brother/BrotherHome.js:67-88 | blank fields or a duplicate phone alert and change nothing, in either store; otherwise the contact is appended and saved locally and, when the module is there, as the native sister list |
| SisterContacts.BrotherHome.Remove | src/screens/brother/BrotherHome.js:90-102 | the contact at the index goes and the rest is saved locally; the native sister list becomes the same list when the module is there and is untouched otherwise |
| TrustedNumbers.NewEntry | src/screens/SisterScreen.jsx:114-116 | an entry exists iff both trimmed fields are non-empty; it keeps the number as typed and upper-cases the keyword |
| TrustedNumbers.DeleteById | src/screens/SisterScreen.jsx:125-128 | every entry with the id goes, and only those |
| TrustedNumbers.DeleteAbsentId | src/screens/SisterScreen.jsx:126 | deleting an id no entry has changes nothing |
| TrustedNumbers.DeleteSplits | src/screens/SisterScreen.jsx:126 | deleting is decided entry by entry, so the remaining order is kept |
| TrustedNumbers.NumberList | src/screens/SisterScreen.jsx:102 | the numbers, one per entry, in list order |
| TrustedNumbers.KeywordList | src/screens/SisterScreen.jsx:103 | the keywords, one per entry, in list order |
| TrustedNumbers.NumbersString | src/screens/SisterScreen.jsx:102 | the numbers joined with commas; `JoinedStringsSplitBack` states that splitting gives them back |
| TrustedNumbers.KeywordsString | src/screens/SisterScreen.jsx:103 | the keywords joined with commas; `JoinedStringsSplitBack` states that splitting gives them back |
| TrustedNumbers.JoinedStringsSplitBack | src/screens/SisterScreen.jsx:102-103 | splitting the two joined strings at commas gives back every number and keyword in order, when none holds a comma |
| TrustedNumbers.EmptyListSendsEmpty | src/screens/SisterScreen.jsx:102-103 | an empty list is sent as two empty strings |
| TrustedNumbers.SisterScreen.Load | src/screens/SisterScreen.jsx:88-93 | a stored list that decodes is adopted; otherwise nothing changes |
| TrustedNumbers.SisterScreen.Save | src/screens/SisterScreen.jsx:95-111 | the list is stored and shown; the comma-joined strings are produced; the alert reports whether the native setters exist |
| TrustedNumbers.SisterScreen.Add | src/screens/SisterScreen.jsx:113-123 | blank fields alert and change nothing; otherwise the new entry is appended and saved |
| TrustedNumbers.SisterScreen.Delete | src/screens/SisterScreen.jsx:125-128 | the entries with the id go and the rest is saved |
| SisterRoster.NatText | src/screens/BrotherHomeScreen.jsx:32 | the decimal text of a number is non-empty and all digits |
| SisterRoster.NatTextValue | src/screens/BrotherHomeScreen.jsx:32 | reading the text back gives the number |
| SisterRoster.NatTextInjective | src/screens/BrotherHomeScreen.jsx:32 | different numbers have different texts |
| SisterRoster.MaxIdNumber | src/screens/BrotherHomeScreen.jsx:32 | no numeric id in the list exceeds it |
| SisterRoster.AddSisterAsWritten | src/screens/BrotherHomeScreen.jsx:30-39 | an entry is added iff the trimmed name and phone are non-empty; it is appended with the untrimmed fields and the id `length + 1` |
| SisterRoster.RemoveSister | src/screens/BrotherHomeScreen.jsx:41-43 | every sister with the id goes, and only those |
| SisterRoster.LengthIdCollides | src/screens/BrotherHomeScreen.jsx:32 | removing sister "1" from the initial list and adding one gives two sisters with id "2", and removing "2" then removes both |
| SisterRoster.RemoveSharedId | src/screens/BrotherHomeScreen.jsx:42 | removing an id every sister has empties the list |
| SisterRoster.AddSister | src/screens/BrotherHomeScreen.jsx:30-39 | the corrected add: added iff both fields are filled; the list gains one entry at the end with the fields as typed |
| SisterRoster.NewIdIsFresh | src/screens/BrotherHomeScreen.jsx:32 | the corrected id differs from every id in the list |
| SisterRoster.AddKeepsUniqueIds | src/screens/BrotherHomeScreen.jsx:30-39 | the corrected add keeps ids unique |
| SisterRoster.AppendFreshId | src/screens/BrotherHomeScreen.jsx:30-39 | appending a sister whose id no sister has keeps the ids unique |
| SisterRoster.RemoveKeepsUniqueIds | src/screens/BrotherHomeScreen.jsx:41-43 | removing keeps ids unique, and with unique ids removes at most one sister |
| SisterRoster.InitialUnique | src/screens/BrotherHomeScreen.jsx:8-11 | the two sample sisters have different ids |

## Left out

- Floating point. Coordinates are decimal tokens. `parseFloat` and `Double.parseDouble` are modelled on
  the texts the patterns can capture: digits, `-` and `.`. Exponent forms, rounding to the nearest
  double, infinities and overflow are not modelled. The `q=` runs and the embed's `\d+` are unbounded,
  so a long enough digit run reads as Infinity in the source: JavaScript's `isFinite` then fails and
  parsing falls through to the next strategy (src/screens/brother/SisterDetail.js:558), and Java's
  `JSONObject.put` throws, so `tryParseLocation` returns null
  (android/app/src/main/java/com/sis/SisterSmsReceiver.java:221-224). The model reads such values as
  ordinary numbers and returns coordinates.
- Number printing. `${x}` and `"" + x` are modelled in their plain decimal forms (`Numbers.JsNumberText`,
  `Numbers.JavaDoubleText`). Java's `Double.toString` uses scientific notation (`5.0E-4`) for
  magnitudes below 1e-3 and from 1e7 up, and JavaScript uses exponent notation below 1e-6 and from
  1e21 up. The model does not render these forms. `Numbers.JavaPlainRange` and `Numbers.JsPlainRange`
  name the ranges where the plain form is the real one. JavaScript prints -0 as "0".
- JavaReadsReply: requires `JavaPlainRange` for both numbers. Outside it the reply holds an exponent
  form, and the source's `q=` run stops at the `E`: latitude 0.0005 leaves only the bare link, and
  longitude 0.0005 is stored as 5.0. The model does not promise anything there.
- JsReadsReply: requires `JavaPlainRange`, for the same reason (the reply text is printed by Java).
- JavaLinkFixedPoint: requires `JavaPlainRange`; `?q=5.0E-4,…` does not parse back in the source.
- JsLinkFixedPoint: requires `JsPlainRange` and excludes -0; JavaScript prints 1e-7 as `1e-7`, and the
  `q=` run stops at the `e`.
- ReceiverRecordsReply: requires `JavaPlainRange`, as `JavaReadsReply` does.
- JsLocation.ParseLocationFromText: on a `q=` match whose parts do not read as numbers, parsing falls
  through to the later strategies. This is in the function's body, but no lemma shows a concrete text
  for it. Such a proof runs through the number-token reader at every step and was too costly.
- Java's `$` before a final line terminator, and regular-expression `\s` beyond the ASCII spaces
  listed in `Text.IsJavaSpace` and `Text.IsJsSpace`.
- Case folding of non-ASCII text. `toUpperCase` and case-insensitive matching fold ASCII letters only.
- JSON. Records are datatypes. `Json<T>` distinguishes only "decodes" from "does not decode". A stored
  value that parses but is not an array is treated as not decoding. Field shapes and nulls inside
  objects are not modelled beyond `Option` fields.
- Timers and React scheduling:
  - `sleep(2000)`, `setInterval` and state batching are collapsed into one `now` per handler call;
  - the 60 s poll is checked on each tick;
  - the closure's stale `lastLocation` is the `view` parameter;
  - the effect keyed on `lastLocation` is `DetailRules.Rerun`, applied by the caller after a step that
    called `setLastLocation`; the handlers' own contracts (`OnEvent`, `PollTick`, `TryParseShown`) do
    not include it. Its `requestRuntimeSmsPermissions` and the re-subscription of the event listener
    are not modelled, and the load's native refresh runs at once rather than 2 s later;
  - `lastUpdatedAt` and other display-only state are not modelled.
- Exceptions from AsyncStorage and SharedPreferences writes, and the alerts they raise, are not
  modelled. Among them is the save-error alert of `saveList` in src/screens/brother/BrotherHome.js.
- Emitting to JavaScript. The `jsAttached` parameter stands for whether a React context exists. A
  failure inside the emit is not modelled.
- The `SettingsModule` in this repository has no `setTrustedNumbers` or `setSecretKeywords`. The
  parameter `serviceAvailable` of `TrustedNumbers.SisterScreen` stands for their presence. With this
  repository's module it is false, so every save ends with the error alert.
- SMS sending, GPS, permission requests, `LocationHelper`'s location lookup, the WebView and Leaflet
  map, rendering and navigation. Only the reply text format of `LocationHelper` is modelled
  (`RoundTrip.ReplyText`). The permission and the send result are parameters of `HandleCheck`.
- Non-string input to `parseLocationFromText` is not modelled. A `null` text for the Java parser is
  `None`. A `null` body for the receiver is the empty body.
- The order of `AsyncStorage.getAllKeys` is the `keyOrder` parameter of the load.
- TrustedSenders.SisterHome.SaveEntry: requires the edited index to be inside the list. The screen only
  sets it from an existing row, and an index past the end would make JavaScript grow the array with a
  hole.
- The `Date.now()` ids of src/screens/SisterScreen.jsx are the `id` parameter of
  `TrustedNumbers.SisterScreen.Add`.
- The secret-code editor of src/screens/brother/BrotherSettings.js is not part of this model. Its
  `secretCodes` map is an input to `DetailRules.SecretCode`.

## Findings

| source | as written | input that shows it | evidently intended | confidence | as-written member | corrected member |
|---|---|---|---|---|---|---|
| src/screens/BrotherHomeScreen.jsx:32 | a new sister's id is `(sisters.length + 1).toString()` | from the two sample sisters, remove "1", then add "C" / "5": the new sister gets id "2", which the remaining sister already has, and removing "2" removes both | ids are unique, so remove drops only the chosen sister | not executed | SisterRoster.LengthIdCollides | SisterRoster.AddKeepsUniqueIds |
| src/screens/brother/SisterDetail.js:143 | the effect depends on `lastLocation`, and its load calls `setLastLocation(JSON.parse(direct))` (:219), a fresh object on every run; each change runs the cleanup, which clears the poll (:141), and then the effect and its load again | any session in which `lastLocation_<phone>` holds a decodable record: the effect reloads without end, and a poll that "Check" starts is cleared by the next cleanup | the effect runs again only when the location on screen really changes, so it settles after the load | not executed | DetailProperties.ReloadNeverSettles | DetailProperties.RerunSettles |
