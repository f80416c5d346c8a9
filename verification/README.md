# A verified model of the browser SSH client and its relay

The repository is an SSH client that runs in the browser (Go compiled to WebAssembly, `web/`) and a Go relay
that carries its connections (`proxy/`). This project models the parts of both that keep state, parse untrusted
text or run concurrently, and proves what they promise. It is Dafny 4.11; `dafny verify dfyconfig.toml` checks
all of it.

## What is modelled

- **The obfuscated tunnel.** `Cipher` derives one counter-mode keystream per direction from a shared secret,
  over an abstract hash, block cipher and Diffie-Hellman whose only laws are output sizes and
  `dh(a, pub(b)) == dh(b, pub(a))`. `Transport` is a byte transport that delivers in pieces and may fail.
  `ObfConnection` is the connection object with its fields and in-place masking. `Tunnel` puts two ends, each
  with a racing reader and writer, on two FIFO wires as a step machine with arbitrary fragmentation;
  `WireFormat` says what its wires carry byte for byte; `Rendezvous` is the key exchange on an unbuffered wire.
- **The mux layer.** `Utf8`, `Decimal`, `Json`, `JsonPrefix` and `JsonRoundTrip` are the string, number and
  JSON codecs (RFC 8259) the header goes through; `MuxHeader` is the length-prefixed header with its 16-bit
  length, `MuxRelay` one stream from dial to relay, `MuxSession` the shared session with concurrent dials.
- **The file server.** `Text` holds the string helpers; `HttpRange` is the range parser (RFC 7233) on 64-bit
  integers, `Multipart` the multipart writer and its predicted length, `RangeResponse` the answer made of both,
  `EntityTag` and `LooseTags` the tag scanner on well-formed lists and on all headers, `Preconditions` the decision list of section 6 of RFC 7232 and revalidation by date, `ConditionalRequests` single
  conditional fields in the RFC's terms.
- **The login gate.** `LoginGate` is the per-address lockout with its separate critical sections, `LoginHistory` the
  same table told from the history of events, `Totp` the
  codes of RFC 6238, `SessionToken` the cookie.
- **Remote files.** `RemoteTree` is recursive removal and mode change over a file system whose every operation
  may fail; `Naming` the two uploads and how they pick a name.
- **Smaller machines.** `PredictiveEcho` and `EchoRuns` are the predicted characters over the terminal,
  `Throttle` the two writers on one token bucket, `ReverseForward` the gated reverse forwards of one SSH session.

Objects the source updates in place are classes here, its loops are loops with invariants, and concurrent code
is a step machine over its critical sections, with every schedule as a sequence of actions.

## Where the code departs from its evident intent

- A suffix range with a sign of its own, `bytes=--5`, is accepted with a negative length
  (`HttpRange.SignedSuffixAccepted`); `HttpRange.WithinUnlessSigned` says this is the only way out of the content.
- Such a suffix among several ranges makes the announced length of the multipart body too small:
  `bytes=--5,0-0` is announced five bytes short (`RangeResponse.SignedSuffixFiveShort`);
  `RangeResponse.SeveralBodiesExact` says exactly when the two lengths agree.
- The body of a single range is read to the end of the content: `bytes=0-0` announces one byte and sends all
  (`RangeResponse.FirstByteSendsAll`); `RangeResponse.SingleBodyExact` says exactly when the two agree.
- An `If-None-Match` list with a comma no tag follows makes the scan index an empty string, unless some tag
  matched before (`EntityTag.TrailingComma`); `LooseTags.PanicIff` says exactly which headers do.
- `upload` assigns a shadowed variable, so every name collision is an error (`Naming.Upload`).
- `uploadToDownloads` overwrites a file when all 10000 candidate names are taken (`Naming.FullListing`).
- A recursive `chmod` follows links and so can change files outside the tree
  (`RemoteTree.ChmodEscapes`); `RemoteTree.ChmodConfined` says exactly when it does not.
- A dial's first failure, even a target that refused, closes the session all other streams run on
  (`MuxSession.RefusalKillsNeighbour`); `MuxSession.SessionEndsOnlySo` says exactly when a session ends.
- A chunk larger than the bucket is passed on at once, because the failed wait is only logged
  (`Throttle.OversizedUnthrottled`).
- In the first step of the Unix epoch the step before is a counter of all ones (`Totp.FirstStepWraps`).
- A comment says characters typed before an echo failed are redrawn as stars; the code only removes them
  (`EchoRuns.RetractedAfterASecond`).

## Model

| member | source | states |
|---|---|---|
| `Bytes.XorTwice` | proxy/obfs.go:159-168 | exclusive-or with the same byte twice is the identity |
| `Bytes.XorAt` | proxy/obfs.go:159-177 | every bit of the exclusive-or is the sum of the operands' bits modulo 2 |
| `Bytes.BigEndianRoundTrip` | web/mux.go:121-122 | a number below 256^w written in w bytes is read back |
| `Bytes.BigEndianConcat` | web/mux.go:121-122 | the first bytes weigh most |
| `Cipher.MaskTwice` | proxy/obfs.go:159-177 | masking at the same keystream position is its own inverse |
| `Cipher.MaskConcat` | proxy/obfs.go:147-177 | masking piecewise, each piece from where the last ended, equals masking the whole |
| `Cipher.UnmaskPrefix` | proxy/obfs.go:159-177 | unmasking any received prefix of the masked stream gives the same-length prefix of the plaintext |
| `Cipher.KeystreamBlock` | proxy/obfs.go:147-157 | for every n, masking sixteen zeros from position 16n gives the cipher block of the 16-byte counter that stands n after the initial one, modulo 2^128 |
| `Cipher.CountersDiffer` | proxy/obfs.go:147-157 | different blocks of a stream, up to 2^128, use different counters |
| `Transport.ReadFull` | proxy/obfs.go:104-106 | success consumes exactly the buffer's length from the front of the stream and fills the buffer with it; failure consumed less |
| `ObfConnection.CtrStream.XorKeyStream` | proxy/obfs.go:164-166 | in place, the first n bytes become their masking from the current position, the rest stays, the position advances by n |
| `ObfConnection.ObfConn.Handshake` | proxy/obfs.go:65-70 | the first call fixes the outcome; every later call returns the same error and touches neither the wire nor the streams |
| `ObfConnection.ObfConn.DoHandshake` | proxy/obfs.go:72-96 | success sends exactly the preamble, consumes exactly the peer's, and installs the direction streams of the shared secret; failure sends at most a part of the preamble |
| `ObfConnection.ObfConn.HandshakePsk` | proxy/obfs.go:98-116 | the secret is the hashed passphrase and the seed, which the client sends and the server reads; error paths included |
| `ObfConnection.ObfConn.HandshakeEcdh` | proxy/obfs.go:118-145 | the secret is the Diffie-Hellman of the own key and the 32 bytes read; failed draw, write, read and agreement are errors |
| `ObfConnection.ObfConn.ReadPayload` | web/obfs.go:134-138 | the buffer holds the unmasking of the bytes taken off the wire, at the read stream's position |
| `ObfConnection.ObfConn.WritePayload` | web/obfs.go:145-147 | the wire gains the masking of a prefix of the data, and the write stream advances by all of it |
| `ObfConnection.ObfConn.Read` | web/obfs.go:130-139 | after a failed handshake nothing is read and the same error returns for ever; otherwise the plaintext of the payload in order |
| `ObfConnection.ObfConn.Write` | web/obfs.go:141-148 | after a failed handshake no payload is sent; otherwise preamble once, then masked payload only |
| `Tunnel.StepKeepsInv` | proxy/obfs.go:65-177 | every action of either end's reader, writer or handshake keeps the invariant of both wires and both ends |
| `Tunnel.RunKeepsInv` | proxy/obfs.go:65-177 | so does every schedule |
| `Tunnel.StreamsMirror` | proxy/obfs.go:88-95 | when both ends finished, each reads with the keystream the other writes with |
| `Tunnel.Transparency` | proxy/obfs.go:67-177 | for every schedule, fragmentation and mode, in both directions, plaintext read is a prefix of plaintext written, and equal once the unbroken wire is drained |
| `Tunnel.HandshakeOnce` | proxy/obfs.go:65-145 | however calls race, an end's wire carries a prefix of its own announcement (the client's 16-byte seed, or the 32-byte public key of the key it drew) and, only once the handshake succeeded and after the whole announcement, a prefix of the masked payload; no call returns a handshake error unless the handshake failed with that very error |
| `Tunnel.OutcomeIsFinal` | proxy/obfs.go:65-70 | once failed or ready, the outcome never changes, so later calls get the same error |
| `WireFormat.EverythingFormatted` | proxy/obfs.go:72-177 | in every schedule, after its preamble a ready end has sent its plaintext, byte j under byte j mod 16 of the cipher block of the counter j/16 after its direction's initial one, with key and counters hashed from the secret the preambles on the wires show |
| `WireFormat.DirectionsDiffer` | proxy/obfs.go:147-157 | the directions share the cipher key, and start from the same counter only if the hashes of two different texts start alike |
| `WireFormat.Delivery` | proxy/obfs.go:159-177 | from every invariant state past both handshakes, what an idle end writes on a drained, unbroken wire reaches a peer that reads |
| `WireFormat.ConversationWorks` | proxy/obfs.go:65-177 | for every mode, draws whose keys agree and data both ways, some schedule from the start shakes hands and delivers both |
| `Rendezvous.StepKeepsInv` | proxy/obfs.go:122-145 | every move keeps the invariant and decreases the work left |
| `Rendezvous.SomeMove` | proxy/obfs.go:130-139 | until both ends are through, some move is enabled |
| `Rendezvous.Progress` | proxy/obfs.go:88-145 | every run on an unbuffered wire has at most 68 moves, is stuck exactly when both ends finished, and then both failed or have mirrored streams |
| `Rendezvous.WriteFirstDeadlocks` | proxy/obfs.go:130-133 | writing the key before reading would be stuck at once |
| `Utf8.SanitizeKeepsExactlyValid` | web/mux.go:113-120 | encoding to JSON keeps a string exactly if it is well-formed UTF-8 |
| `Utf8.ValidIffEncoded` | web/mux.go:113-120 | well-formed is exactly what encoding Unicode scalar values one after the other gives |
| `Decimal.ParseFormat` | proxy/auth.go:234-246 | every 64-bit integer survives printing and parsing |
| `Decimal.FormatNatInjective` | web/browser.go:549 | different numbers have different decimal texts |
| `JsonRoundTrip.ParseEncoded` | web/mux.go:114-117 | a string literal written by the encoder is read back, up to replaced malformed bytes, and reading stops at its end |
| `JsonPrefix.ParseValueExtends` | proxy/mux.go:97-99 | text after a complete value does not change how it parses |
| `JsonPrefix.ObjectsArePrefixFree` | proxy/mux.go:97-99 | no strict prefix of a JSON object is a JSON text |
| `MuxHeader.WriteMuxHeader` | web/mux.go:111-125 | success appends exactly the frame; failure at most a prefix of it |
| `MuxHeader.ReadMuxHeader` | proxy/mux.go:80-101 | a header returned is the one the stream carries and exactly its bytes are consumed; on a reliable stream a rejection means there is none |
| `MuxHeader.UnmarshalMarshal` | web/mux.go:114-117 | decoding inverts encoding for every host and 64-bit port, up to replaced malformed bytes |
| `MuxHeader.PrefixRejected` | proxy/mux.go:89-99 | every strict prefix of the encoded header is rejected |
| `MuxHeader.FramedHeader` | proxy/mux.go:80-101 | for every host, port and payload: header and exactly the payload are recovered if the encoding has at most 4096 bytes, and rejected otherwise, the wrap of the 16-bit length included |
| `MuxHeader.HostRecovered` | proxy/mux.go:93-100 | the host comes back as written if and only if it is well-formed UTF-8 |
| `MuxHeader.PlainHeader` | web/mux.go:114-117 | for a host without characters to escape the object is literally `{"Host":"host","Port":port}` |
| `MuxHeader.FrameLayout` | web/mux.go:121-123 | the length's high byte, its low byte, modulo 65536, then the object |
| `MuxHeader.NamesInAnyCase` | proxy/mux.go:93-99 | field names are matched in any case |
| `MuxRelay.HeaderOfExtends` | proxy/mux.go:80-101 | a header read from what has arrived is the same when more arrives |
| `MuxRelay.StepKeepsInv` | proxy/mux.go:49-78 | every read, write, dial and delivery keeps the stream's invariant |
| `MuxRelay.RelayIsTransparent` | proxy/mux.go:49-101 | in every schedule only the requested target is dialled, it receives a prefix of what the client wrote, the client reads a prefix of what it sent, and both are equal once drained |
| `MuxRelay.StreamWorks` | proxy/mux.go:49-78 | for every header that fits and all data both ways, some schedule dials the target and delivers both |
| `MuxSession.StepKeepsOneLive` | web/mux.go:51-84 | every step leaves each session closed or current |
| `MuxSession.StepKeepsNoLeak` | web/mux.go:86-109 | every step leaves each stream closed or held, open, by the dial that opened it |
| `MuxSession.SessionsAndStreams` | web/mux.go:51-109 | in every interleaving of dials, retries and session deaths: every session ever created is closed or current, a dial makes at most two attempts, and a finished dial's streams are closed but for the one returned with status 1 read |
| `MuxSession.AtMostTwoStreams` | web/mux.go:70-84 | a dial opens at most as many streams as attempts, so at most two |
| `MuxSession.AcquiredIsLive` | web/mux.go:51-68 | a session handed out is live: the current one if that lives, only otherwise a new one; none only if none lives and the proxy cannot be reached |
| `MuxSession.GoodDialReturns` | web/mux.go:86-109 | from every state a dial whose proxy and target cooperate returns a new open stream on a live session |
| `MuxSession.RetryClosesEverySession` | web/mux.go:74-80 | right after any dial's retry begins no session is live, so all open streams have lost theirs |
| `MuxSession.SessionEndsOnlySo` | web/mux.go:51-84 | in every reachable state a session is closed if and only if it died or was current at some dial's retry |
| `MuxSession.RefusalKillsNeighbour` | web/mux.go:72-109 | a run in which a refused target closes the session of another dial's returned, open stream |
| `MuxSession.MuxClient.GetSession` | web/mux.go:51-68 | one move of the pool: the live current session, else a new one made current, else nothing changes |
| `MuxSession.MuxClient.ResetSession` | web/mux.go:75-80 | one move of the pool: the current session is closed and forgotten |
| `LoginGate.Gate.LoginLocked` | proxy/auth.go:74-86 | removes exactly the expired entries, then says whether the address is locked |
| `LoginGate.Gate.RecordLogin` | proxy/auth.go:88-108 | success clears the address; failure counts, and from the tenth on locks for 24 hours |
| `LoginGate.RunBounded` | proxy/auth.go:75-108 | along every run the failures counted in the window never exceed nine plus the requests in flight |
| `LoginGate.LockoutBound` | proxy/auth.go:43-108 | with at most k requests of an address in flight, any 24-hour window without a success of it holds at most 9+k recorded failures, whatever other addresses and sweeps do |
| `LoginGate.LockoutBoundAttained` | proxy/auth.go:190-210 | for every k >= 1 some run, with the second of sleep between every check and record, reaches 9+k, so the bound is exact |
| `LoginHistory.TableTellsHistory` | proxy/auth.go:74-108 | in every run the stored count of an address is the number of its failures since its last success or since a check more than a day after them forgot them; lock and last time are those of the last of them |
| `LoginHistory.LockedIff` | proxy/auth.go:74-108 | a check is refused if and only if ten or more failures count and a day has not passed since the last one's lock |
| `LoginHistory.SuccessClears` | proxy/auth.go:88-95 | after a success and fewer than ten later failures the next check is admitted, however many came before |
| `LoginHistory.StreakExact` | proxy/auth.go:74-108 | less than a day after a success exactly the failures since then count |
| `LoginHistory.LockedAtTen` | proxy/auth.go:74-108 | less than a day after a success an address is refused exactly from its tenth failure on |
| `Totp.TruncateMeansLow31Bits` | proxy/auth.go:280-285 | for every MAC the four bytes taken lie inside it and give the low 31 bits of their big-endian number |
| `Totp.SixDigits` | proxy/auth.go:275-287 | every code is six decimal digits that read back as the truncated value modulo a million |
| `Totp.CounterBytesInjective` | proxy/auth.go:276-279 | different steps, negative ones included, authenticate different messages |
| `Totp.CounterBytesValue` | proxy/auth.go:276-277 | the message is eight bytes whose big-endian number is the counter as an unsigned 64-bit integer |
| `Totp.AcceptedIffRfc` | proxy/auth.go:261-287 | from the epoch on, a code is accepted iff it is the six digits of the RFC 4226 value of the MAC of an eight-byte message whose big-endian number is t/30 or a neighbour, modulo 2^64 |
| `Totp.VerifyTotp` | proxy/auth.go:261-273 | accepts exactly the codes of the current step and its two neighbours |
| `Totp.AcceptedWithinThirtySeconds` | proxy/auth.go:261-273 | a code made at s is accepted at every t with \|t - s\| <= 30 |
| `Totp.AcceptedIffAdjacent` | proxy/auth.go:261-287 | it is accepted exactly at adjacent steps, or where an adjacent step gives the same digits from another message |
| `Totp.StaleNeedsCollision` | proxy/auth.go:261-287 | a code a minute old or older passes only by such a coincidence |
| `Totp.FirstStepWraps` | proxy/auth.go:266-277 | in the first thirty seconds of the epoch the code of eight bytes of all ones is accepted |
| `SessionToken.ValidIff` | proxy/auth.go:238-257 | a token is valid exactly if it is a dot-free 64-bit number, a dot and that text's MAC, and the number lies ahead |
| `SessionToken.IssuedValidUntilExpiry` | proxy/auth.go:233-251 | for every 64-bit expiry e, the token made for e is valid if and only if now < e |
| `SessionToken.StolenMacNeedsCollision` | proxy/auth.go:238-257 | a valid token with the MAC of an issued one is that token, or its payload collides with the issued one under the 32-byte MAC |
| `SessionToken.HexReads` | proxy/auth.go:256 | two lower-case hexadecimal digits for each byte, the high half first |
| `SessionToken.TokensDiffer` | proxy/auth.go:233-236 | tokens of different expiries differ |
| `HttpRange.ElementRead` | proxy/fileserver.go:784-831 | an element of the grammar, with any white space around it, is read as what its numbers ask for |
| `HttpRange.InnerSpaceIgnored` | proxy/fileserver.go:788-792 | space on either side of the dash makes no difference |
| `HttpRange.PartWithin` | proxy/fileserver.go:793-831 | for any text, the range read lies within the content iff the text is not a suffix with its own minus sign |
| `HttpRange.ParseShaped` | proxy/fileserver.go:793-832 | every accepted range lies within the content, or has a negative length and lies past the end by as much, or a negative start where the 64-bit subtraction overflows |
| `HttpRange.ParseRange` | proxy/fileserver.go:773-839 | the loop computes the specified parse on every header |
| `HttpRange.ParseMeetsMeaning` | proxy/fileserver.go:773-839 | for every header of the grammar: invalid iff a spec within the content ends before it starts; no overlap iff some spec starts past the end and nothing is kept; otherwise the ranges, in order, lie in the content and cover exactly the requested positions of it |
| `HttpRange.WithinUnlessSigned` | proxy/fileserver.go:794-832 | for every accepted header, all ranges lie within the content iff no element is a suffix with its own minus sign |
| `HttpRange.SignedSuffixAccepted` | proxy/fileserver.go:797-805 | `bytes=--5` is accepted with a start past the end and length -5 |
| `HttpRange.SumRangesSize` | proxy/fileserver.go:863-868 | the running 64-bit sum of the lengths |
| `HttpRange.SumWraps` | proxy/fileserver.go:863-868 | for all ranges the running 64-bit sum is the total modulo 2^64 |
| `HttpRange.SumIsTotal` | proxy/fileserver.go:863-868 | the sum does not overflow while count times size fits in 64 bits |
| `HttpRange.ServedWithinSize` | proxy/fileserver.go:249-255 | honoured ranges total at most the size, and are all of them if they do |
| `Multipart.PartWriter.CreatePart` | proxy/fileserver.go:288 | appends (or counts) delimiter and part header, with a line break before all but the first |
| `Multipart.WriteRanges` | proxy/fileserver.go:286-304 | for all ranges the loop fails iff some range starts before the content or runs out of it, and else emits the multipart body whose parts are the requested slices, empty for lengths that are not positive |
| `Multipart.RangesMimeSize` | proxy/fileserver.go:849-861 | for all ranges the loop computes the length of the body with empty parts plus the sum of the lengths, in 64 bits |
| `Multipart.PredictedLength` | proxy/fileserver.go:277-304 | the prediction with one boundary is the length of the body written with any other of the same length, less the sum of the magnitudes of negative lengths, in 64 bits |
| `Multipart.PredictionExact` | proxy/fileserver.go:277-304 | it is exact iff that sum is a multiple of 2^64; below 2^64, iff no length is negative |
| `Multipart.BodyReadBack` | proxy/fileserver.go:286-304 | a reader that trusts only the boundary and each part's own header gets exactly the requested slices back, in order, with their starts, the content's size and type, iff no length is negative |
| `Multipart.Delimiters` | proxy/fileserver.go:281-302 | the delimiters of RFC 2046, spelt out |
| `RangeResponse.ServeContent` | proxy/fileserver.go:237-326 | the branches on the header compute the specified status, announced length and body |
| `RangeResponse.NoFieldWhole` | proxy/fileserver.go:238-239 | without a Range field the answer is 200 with the whole content |
| `RangeResponse.GrammarAnswer` | proxy/fileserver.go:240-311 | for every grammar header: 416 iff a spec runs backwards, or nothing is kept and some spec starts past the end; 200 with the whole content if only blanks or more positions than there are, in total, are asked for; else 206 |
| `RangeResponse.OtherUnitRefused` | proxy/fileserver.go:778-780 | a field in another unit is refused |
| `RangeResponse.SingleBodyExact` | proxy/fileserver.go:257-321 | for every header that leaves one range: 416 if its start is negative; else the body has the announced length iff no suffix is signed and the range reaches the end, and is the range iff it reaches the end |
| `RangeResponse.SingleSpecExact` | proxy/fileserver.go:257-321 | for every grammar header with one spec in the content: the lengths agree iff the spec is open, a suffix, or ends no earlier than the content |
| `RangeResponse.FirstByteSendsAll` | proxy/fileserver.go:269-321 | `bytes=0-0` announces one byte and sends the whole content of two bytes or more |
| `RangeResponse.SeveralBodiesExact` | proxy/fileserver.go:249-321 | for every header that leaves several ranges: a panic iff some start is negative; else announced and actual length differ by the magnitudes of the signed suffixes modulo 2^64, and agree, below 2^64, iff no suffix is signed |
| `RangeResponse.SignedSuffixFiveShort` | proxy/fileserver.go:797-805 | `bytes=--5,0-0` is served as multipart and announced five bytes short of its body |
| `EntityTag.ScanETag` | proxy/fileserver.go:329-355 | the loop finds the specified tag and remainder on every input |
| `EntityTag.ScanTag` | proxy/fileserver.go:329-355 | text with a valid tag in front gives exactly that tag and the rest |
| `EntityTag.CheckIfMatch` | proxy/fileserver.go:379-407 | the loop terminates and computes the specified condition on every header |
| `EntityTag.CheckIfNoneMatch` | proxy/fileserver.go:425-452 | the same, with the panic on an empty remainder as an outcome |
| `EntityTag.MatchListMeaning` | proxy/fileserver.go:384-406 | scanning a list visits all of it: true iff some tag strongly matches |
| `EntityTag.NoneMatchMeaning` | proxy/fileserver.go:431-451 | scanning a list: false iff some tag weakly matches, else true, or a panic if a comma ends the list |
| `EntityTag.ListsMeanTheirTags` | proxy/fileserver.go:379-452 | for every list of valid tags (commas allowed inside them): If-Match is true iff some tag strongly matches, If-None-Match false iff some tag weakly matches |
| `ConditionalRequests.ComparisonTable` | proxy/fileserver.go:357-367 | strong comparison is equality of tags that are not weak, weak comparison equality but for weakness |
| `ConditionalRequests.ListsByTags` | proxy/fileserver.go:379-452 | both conditions on lists, in terms of weakness and text of the tags |
| `ConditionalRequests.Star` | proxy/fileserver.go:393-441 | a star satisfies If-Match and fails If-None-Match |
| `ConditionalRequests.Malformed` | proxy/fileserver.go:396-445 | text that starts with no tag, star or comma satisfies neither field's matching |
| `ConditionalRequests.TagCharacters` | proxy/fileserver.go:345-348 | the characters of a tag and of white space |
| `EntityTag.TrailingComma` | proxy/fileserver.go:436-439 | a well-formed list with a comma at the end leaves If-Match unaffected and makes If-None-Match panic iff no tag weakly matches |
| `LooseTags.PanicIff` | proxy/fileserver.go:425-452 | for every header: If-None-Match panics iff the header is tags, none weakly matching, each with at most one comma before it and space anywhere between, and then a comma with only space around it |
| `LooseTags.NoCommaNoPanic` | proxy/fileserver.go:425-452 | a header whose trimmed text does not end in a comma never panics |
| `LooseTags.SideBySide` | proxy/fileserver.go:436-449 | two tags without a comma between them, and a comma behind, panic as well |
| `Preconditions.CheckPreconditions` | proxy/fileserver.go:535-566 | the decision is the one of the step list of section 6 of RFC 7232, unless the If-None-Match scan is reached and panics |
| `Preconditions.NotModifiedOnlyToReads` | proxy/fileserver.go:545-559 | 304 goes only to GET and HEAD |
| `Preconditions.IfMatchNeverPanics` | proxy/fileserver.go:379-407 | no If-Match header makes the evaluation panic |
| `Preconditions.CrashIff` | proxy/fileserver.go:535-566 | for every request: the evaluation panics iff If-Match and If-Unmodified-Since let it reach If-None-Match and that header is one of those above |
| `Preconditions.NoCommaNoCrash` | proxy/fileserver.go:535-566 | no request panics whose If-None-Match does not end in a comma |
| `Preconditions.WellFormedListsDoNotCrash` | proxy/fileserver.go:425-452 | no well-formed If-None-Match list does either |
| `Preconditions.RevalidateByDate` | proxy/fileserver.go:454-516 | returning a Last-Modified value yields 304 if and only if the file's modification second is not later |
| `Preconditions.RevalidationFresh` | proxy/fileserver.go:454-516 | the unchanged file yields 304, and one modified at least a second later never does |
| `ConditionalRequests.UnmodifiedSinceAlone` | proxy/fileserver.go:409-423 | alone, If-Unmodified-Since gives 412 iff it is a date and the modification second is later; otherwise the request proceeds with its range |
| `ConditionalRequests.UnmodifiedByDate` | proxy/fileserver.go:409-423 | returning a Last-Modified value gives 412 iff the file was modified in a later second |
| `ConditionalRequests.IfRangeByDate` | proxy/fileserver.go:474-503 | an If-Range date keeps the range iff it is the very second of the modification |
| `ConditionalRequests.IfRangeByTag` | proxy/fileserver.go:474-489 | an If-Range tag keeps the range iff it is strong and the resource's own |
| `ConditionalRequests.IfRangeAlone` | proxy/fileserver.go:474-503 | for other methods than GET and HEAD the range is kept whatever the field says |
| `RemoteTree.RecDelete` | web/browser.go:278-304 | success removes exactly the entries at or under the path, links unfollowed; failure leaves a well-formed tree that lost entries only there; no non-empty directory is asked to be removed; on a reliable server it succeeds on everything but the root |
| `RemoteTree.Chmod` | web/browser.go:427-450 | success sets the mode of exactly what the subtree's entries resolve to; failure changes at most some of those |
| `RemoteTree.ChmodEntryByEntry` | web/browser.go:427-450 | after success everything at or under the path that is no link, and everything a link there leads to, has the mode and its kind; nothing else changed |
| `RemoteTree.ChmodConfined` | web/browser.go:427-450 | that is exactly the subtree if and only if every link in it resolves inside it, or to something that has the mode already |
| `RemoteTree.ChmodEscapes` | web/browser.go:427-450 | a directory with a link to a file beside it: the recursive change sets the file's mode |
| `RemoteTree.RemovedWellFormed` | web/browser.go:278-304 | a tree without one of its subtrees is well-formed |
| `Naming.IsUnique` | web/browser.go:579-586 | true iff the name is not listed |
| `Naming.CandidateReads` | web/browser.go:549 | a candidate is the name, a dot and the number in decimal |
| `Naming.ChooseName` | web/browser.go:547-555 | the free candidate with the least suffix, or the name itself if all 10000 are taken |
| `Naming.ChoiceIsUnique` | web/browser.go:547-555 | that determines one name |
| `Naming.TakenNeedsEntries` | web/browser.go:548-550 | a listing that holds the first n candidates has at least n entries |
| `Naming.FreeIff` | web/browser.go:547-555 | the chosen name is free iff one of the 10000 candidates is |
| `Naming.SmallListingIsSafe` | web/browser.go:540-555 | with fewer than 10000 entries it is always free |
| `Naming.FullListing` | web/browser.go:547-557 | some listing of 10000 entries makes it a taken name |
| `Naming.UploadToDownloads` | web/browser.go:540-574 | success stores the data under the chosen name and changes nothing else; with fewer than 10000 entries no existing entry ever changes, failures included, and a reliable server always accepts under a fresh name |
| `Naming.Upload` | web/browser.go:469-503 | a collision is always an error that changes nothing; success stores the data under a new name |
| `PredictiveEcho.EchoOverlay.PlaceChar` | web/html/index.html:1785-1804 | a guess at the predicted cursor, a star while masked; all guesses go at the right margin |
| `PredictiveEcho.EchoOverlay.HandleData` | web/html/index.html:1808-1825 | the loop over a keystroke's data computes the specified overlay |
| `PredictiveEcho.EchoOverlay.ReconcileAll` | web/html/index.html:1827-1858 | the loop over the guesses computes the specified overlay |
| `PredictiveEcho.ReconcileMeaning` | web/html/index.html:1833-1856 | exactly the leading guesses the screen shows are confirmed, each with its delay; the rest stay iff the next cell is blank and not overdue, and masking is on afterwards exactly in the stated cases |
| `EchoRuns.SmoothedBetween` | web/html/index.html:1838-1839 | a new delay keeps the estimate between the least and greatest confirmed delay |
| `EchoRuns.TypedPlain` | web/html/index.html:1808-1815 | printable keys short of the margin draw one guess each, side by side, as themselves or as stars while masked |
| `EchoRuns.BackspaceUndoes` | web/html/index.html:1815-1819 | backspace takes the last guess back |
| `EchoRuns.ControlKeyClears` | web/html/index.html:1820-1823 | any other key leaves no guess, whatever was typed with it |
| `EchoRuns.OnlyWhereEchoed` | web/html/index.html:1808-1829 | no guesses outside a live session or on another screen |
| `EchoRuns.Timing` | web/html/index.html:1778-1839 | a new delay counts one eighth; a guess may wait three times the estimate, 400 ms without one, within 150 and 1000 ms |
| `EchoRuns.NextKeepsInv` | web/html/index.html:1778-1872 | every event keeps the guesses in line and the estimate in bounds |
| `EchoRuns.GuessesStayInLine` | web/html/index.html:1778-1872 | in every run the guesses are in typed order on consecutive cells of one row before the last column, and the estimate lies between the least and greatest confirmed delay |
| `EchoRuns.SecretsStayMasked` | web/html/index.html:1790-1791 | once masking is armed with only stars drawn, only stars are drawn until the server echoes a guess |
| `EchoRuns.RetractedAfterASecond` | web/html/index.html:1846-1853 | an unmasked guess left blank for more than a second is withdrawn by the next output, and masking is armed |
| `EchoRuns.EchoedRun` | web/html/index.html:1808-1858 | with in-order echoes within 150 ms, printable keys, blank cells ahead and no margin hit, no guess is withdrawn and screen plus pending guesses is everything typed |
| `Throttle.DueExactly` | proxy/main.go:405-409 | the moment a throttled chunk waits for is the first at which the bucket is out of debt |
| `Throttle.LimitedWriter.Write` | proxy/main.go:404-412 | counts the whole chunk, waits only past the free part, and passes it on even if the wait failed |
| `Throttle.MeteredWriter.Write` | proxy/main.go:419-423 | the counter grows by exactly the bytes accepted downstream |
| `Throttle.StepKeepsInv` | proxy/main.go:392-412 | every step of either writer and of time keeps tokens balanced and the debt covered by waiting chunks |
| `Throttle.ThrottleBound` | proxy/main.go:392-412 | in every run with chunks up to m <= burst, both writers together pass at most 2*(freeLimit + m) + burst + rate*t bytes by time t |
| `Throttle.WindowBound` | proxy/main.go:392-412 | once both writers are past their free part, any stretch of any run passes at most the burst, the chunks waiting at its start, and the rate times its length |
| `Throttle.FreePartAtOnce` | proxy/main.go:404-411 | chunks within the free part pass at once and take no tokens |
| `Throttle.OversizedUnthrottled` | proxy/main.go:405-411 | any number of chunks over the burst pass at once |
| `Throttle.BoundIffChunksFit` | proxy/main.go:392-412 | the bound holds in all runs with chunks up to m if and only if m <= burst |
| `Throttle.DefaultsAreSafe` | proxy/main.go:386-412 | the bound with the built-in settings and 32 KiB chunks |
| `ReverseForward.RevFwd.Retarget` | web/reverse.go:73-76 | host, port and the gate change together |
| `ReverseForward.RevFwd.Gate` | web/reverse.go:128-131 | closes the gate and keeps the target |
| `ReverseForward.StepKeepsInv` | web/reverse.go:70-135 | every critical section of every call keeps one listener per address with a target asked for there |
| `ReverseForward.UntornTargets` | web/reverse.go:70-112 | in every interleaving a forwarded connection goes to a host and port one call asked for together at that address; an address has one listener; a call that reported success left it registered |
| `ReverseForward.GateHolds` | web/reverse.go:98-135 | while an address is gated and no call re-enables it, nothing arriving there is forwarded, whatever else happens |
| `ReverseForward.StopGates` | web/reverse.go:117-135 | in particular after every stop that took effect in any reachable state |
| `ReverseForward.AddOpens` | web/reverse.go:70-96 | in every reachable state an add that takes effect opens its address to its own target |
| `ReverseForward.OpenHolds` | web/reverse.go:98-112 | while an address is open and no call changes that, every arriving connection is passed on to its target and none elsewhere |

## Left out

- SHA-256, HMAC, AES and X25519 themselves: parameters with only the laws used; the key agreement may fail, but on both sides alike.
- yamux, WebSocket, SFTP and SSH: ideal FIFO streams, an abstract file system and a server that grants or refuses listeners.
- ObfConnection.ObfConn.HandshakeEcdh: the object's methods run one call at a time, with the key written before the peer's is read; that both happen at once is the subject of the Tunnel and Rendezvous modules.
- The obfuscation layer with different settings at the two ends: no promise is made for it.
- The legacy `/p` path: it relies on one read per message and on a decoder that may read past the reply, so it has no clean framing.
- MuxRelay.RelayIsTransparent: the teardown may come at any moment, not only once a direction has closed, so the claims hold for more runs than there are.
- RangeResponse.ServeContent: the Content-Range field of a single range and of the answer 416 is not part of the answer; the content can be read and sought without errors of its own; what the HTTP library does with a body of another length than announced is not modelled.
- Multipart.BodyReadBack: for content types without line breaks.
- The text format of HTTP dates: a parameter with the laws that a formatted second is read back and, for If-Range, does not scan as an entity tag.
- RemoteTree.RecDelete: nobody else changes the file system meanwhile, and paths are given with links in inner components resolved.
- RemoteTree.Chmod: the same.
- Naming.UploadToDownloads: names are base names, as a browser gives for a dropped file, so joining them to the directory stays in it; finding the home directory and creating the directory first are not modelled.
- Naming.Upload: names are base names, too.
- LoginGate.LockoutBound: one process with a clock that does not run backwards; which address a request has is taken as given.
- Throttle.ThrottleBound: the token bucket is the plain one over real numbers, without rounding of durations.
- The recognition of password prompts by a regular expression: the event that arms masking; the drawing of the overlay.
- ReverseForward.UntornTargets: the remote server binds an address once. That is not so for remote port 0, which the function accepts and the server replaces by a free port each time; only the page's form refuses it.
- ReverseForward.StopGates: within one SSH session; entries outlive it in the source, so across sessions a reported success need not mean a live listener.
- Host-key prompts, target blacklists, admin API, metrics, audit log, branding, login page, WebAuthn, service worker and the rest of the user interface: thin wrappers or easy finite checks.
