# monitostr: codec and relay sessions, verified

This project models two parts of monitostr and proves what they promise, for all inputs and all runs.
`dafny verify dfyconfig.toml` checks it.

**The NIP-19 codec.** A Nostr key travels as a Bech32 string (BIP-173; NIP-19, section "Bare keys and
ids"). `Words` holds 32-bit words, `Checksum` the shift register, `Codewords` the generator and the
verifier of the checksum, `Remainder` what the register computes in the terms of BIP-173, `Gf1024` and
`Distance` the errors it detects, `Regrouping` the conversion between symbol widths, `RadixValues` what
that does to numbers, `Bech32` the text form, `Nip19` the entry points and the hexadecimal forms. `Typos`
says what the checksum means for someone who types a key. `Terminator` describes what the decoder makes
of NUL characters, and `ZeroKey` and `ExampleKeys` write examples out. The arithmetic of the codec is on
bit-vectors of the width the program uses.

**The relay sessions.** `RelayTarget` parses addresses and `Bootstrap` turns the answers of seed relays
into the list to monitor. `Reconnect` is the retry policy, `RelayStatsModel` the shared table.
`SessionModel` is one session as a step system: its fields, its table entry, and the asynchronous
operations in flight, which the environment completes as it likes. `RelaySessionModel` is the session
object, whose handlers change the fields and the table in place and are proved to do those steps.
`SessionRecords` writes out what each event makes of a session and what its entry says about the run.
`SessionRuns` and `SessionProperties` prove what holds in every run, `MultiSession` what holds when many
sessions interleave over one table, and `SessionManagerModel` adds the manager that starts and stops
them. `Restart` lets the sessions that a second Start stopped work on beside the new ones.

Where the program and its own texts disagree, the model follows the program:
- the error text of `EncodeNpubFromHex` asks for lower-case digits (src/nip19/npub.cpp:38), but digits in
  upper case are accepted, too;
- a bootstrap that fails on all seeds says that it uses an emergency fallback set
  (src/net/bootstrap_client.cpp:338), but it reports an empty list.

Five things that one might expect are false of the program, and the exact conditions are proved instead:
- the decoder accepts texts that no encoder writes, because `strchr` finds the terminator of the
  character set (`ZeroKey.NulIsAccepted`); it accepts exactly the encoder's image among the texts without
  NUL (`Bech32.AcceptedLanguage`), and `Terminator.AcceptedTexts` describes all it accepts;
- the status does not stay Disconnected after Stop, because the handlers up to the WebSocket handshake do
  not look at the flag; `SessionProperties.StaysDisconnected` says when it does, and
  `SessionProperties.SettlesDisconnected` when it does from the first time it says so;
- a stopped session does not always come to rest with the flag ws_connected_ clear, for the same reason;
  `SessionProperties.RestsClear` says when it does, and `SessionProperties.RestsShut` when the TCP socket
  is closed all the same;
- the relay counts of the table may not agree with the sessions when an address is repeated
  (`MultiSession.RepeatedAddressMiscounts`); they agree in every interleaving if and only if no
  address is (`MultiSession.AgreementNeedsDistinct`), and the bootstrap repeats none;
- after a second Start they may not agree either, because stopped sessions still write to the table
  (`SessionManagerModel.ForgottenSessionInterferes`); `Restart.RestartCondition` says when they do.

The environment's part: which operation completes next and how, the clock, and the jitter (any value from
0 to 250) are parameters of a step. A timer completes with an error only after it was cancelled, and an
operation that was begun on a TCP socket that Stop or a reset had closed completes only with an error;
what is begun after a WebSocket close is left to the environment. Start comes once for each session, as the
manager does it. Case conversion is that of the C locale, `char` is signed, and prefixes contain no NUL and
no upper-case letter where a theorem says `Proper`.

## Model

| member | source | states |
|---|---|---|
| Checksum.Polymod | src/nip19/bech32_internal.hpp:44-57 | the nested loops compute the register that the recursive specification `Feed` defines, started at 1 |
| Checksum.StepFits | src/nip19/bech32_internal.hpp:47-54 | the register never holds more than 30 bits after a round, whatever it held before and whatever byte is fed in |
| Checksum.FeedAdds | src/nip19/bech32_internal.hpp:44-57 | feeding is linear: the register for the sum of two words is the sum of their registers |
| Checksum.AdvanceInjective | src/nip19/bech32_internal.hpp:47-54 | a round that feeds in zero loses nothing: only the zero register becomes zero |
| Checksum.FeedSix | src/nip19/bech32_internal.hpp:44-57 | six symbols fed into the zero register fill it exactly, in order |
| Checksum.PackedUnpacked | src/nip19/bech32_internal.hpp:223-227 | the six symbols cut from a 30-bit register make up that register again |
| Remainder.GenIsScaled | src/nip19/bech32_internal.hpp:31-33 | each of the five constants is the generator polynomial of BIP-173 without its leading term, scaled by the matching power of the field generator |
| Remainder.PolymodIsRemainder | src/nip19/bech32_internal.hpp:44-57 | for symbols of any length, the six symbols of the register are the remainder r of the polynomial with coefficients 1 and then the symbols, modulo the generator: a quotient and a remainder divide it if and only if they are the ones the register yields |
| Codewords.HrpExpand | src/nip19/bech32_internal.hpp:59-70 | the loop yields the high bits of every character (of a signed char), a zero, and the low five bits |
| Codewords.ExpandedParts | src/nip19/bech32_internal.hpp:59-70 | a character of the prefix, as a signed number, is 32 times its entry in the first part and its entry below 32 in the second, with a zero between the parts |
| Codewords.VerifyChecksum | src/nip19/bech32_internal.hpp:72-76 | answers whether the register after prefix and symbols is 1 |
| Codewords.CreateChecksum | src/nip19/bech32_internal.hpp:218-229 | yields the six symbols of the specification that `GeneratorMeetsVerifier` pins down |
| Codewords.GeneratorMeetsVerifier | src/nip19/bech32_internal.hpp:72-76 | for every prefix, data and six symbols: the verifier accepts if and only if the six are the generated checksum |
| Codewords.BurstDetected | src/nip19/bech32_internal.hpp:44-76 | at any length, two words that agree outside six consecutive places, differ there, and hold five-bit symbols there never both verify |
| Distance.FeedKeepsValue | src/nip19/bech32_internal.hpp:44-57 | feeding keeps the value of a word, of any length, at three consecutive powers of a field element, the roots of the generator |
| Gf1024.OrderIs1023 | src/nip19/bech32_internal.hpp:31-33 | that element has order 1023: 1023 multiplications by it fix every element, fewer fix none but zero, which is where the length limit of the next row comes from |
| Distance.MinimumDistance | src/nip19/bech32_internal.hpp:44-76 | two different words of up to 1023 symbols that both verify differ in at least four places |
| Regrouping.ConvertBits | src/nip19/bech32_internal.hpp:78-106 | for all widths 1 to 8, both padding modes and inputs of any length, the masked 32-bit accumulator appends the big-endian regrouping of the bit stream to what the vector held, and fails exactly when a value is too wide or an unpadded rest is a whole symbol or not zero |
| Regrouping.PadThenUnpad | src/nip19/bech32_internal.hpp:78-106 | regrouping with padding and back gives the input again if and only if the padding is shorter than an input symbol; 8 to 5 always meets this |
| Regrouping.UnpadThenPad | src/nip19/bech32_internal.hpp:78-106 | whenever regrouping without padding succeeds, regrouping back with padding gives the original symbols: padding is canonical |
| RadixValues.PaddedValue | src/nip19/bech32_internal.hpp:85-100 | regrouping with padding in numbers: it succeeds if and only if every value is below 2^from, and yields the digits below 2^to of the number of the input times 2^p, with 0 <= p < to |
| RadixValues.UnpaddedValue | src/nip19/bech32_internal.hpp:85-105 | regrouping without padding in numbers: it succeeds if and only if every value is below 2^from, fewer than `from` bits are left over, and they are zero, and yields the digits of the number of the input divided by 2 to their count |
| RadixValues.DigitsUnique | src/nip19/bech32_internal.hpp:89-94 | which determines the symbols: two sequences of as many digits below 2^w for one number are the same |
| Bech32.ValueOfChar | src/nip19/bech32_internal.hpp:35-42 | the characters of the set are read as the value they were written for, and none is the separator, NUL or in upper case |
| Bech32.CharOfValue | src/nip19/bech32_internal.hpp:35-42 | a readable character has a value below 32 exactly when it is not NUL, and then is the character for that value |
| Bech32.CharsetTable | src/nip19/bech32_internal.hpp:239-245 | the encoder writes v < 32 as character v of "qpzry9x8gf2tvdw0s3jn54khce6mua7l" |
| Bech32.CharsetMembers | src/nip19/bech32_internal.hpp:35-42 | the decoder reads c as v < 32 if and only if c is character v of that text, and as 32 if and only if it is NUL |
| Bech32.EncodeBech32_32Bytes | src/nip19/bech32_internal.hpp:233-247 | the loops write prefix, separator, payload and checksum as the specification `Encoded`, which `AcceptedLanguage`, `CharsetTable` and the two examples pin down; anything but 32 bytes gives the empty text |
| Bech32.DecodeBech32_32Bytes | src/nip19/bech32_internal.hpp:123-194 | the loops and checks answer as the specification `Decoded`, with the same error for every rejected text |
| Bech32.EarlyRejections | src/nip19/bech32_internal.hpp:125-150 | a text is rejected as empty if and only if it is, and as mixed if and only if it has letters of both cases; one without the separator is rejected for that |
| Bech32.Rejections | src/nip19/bech32_internal.hpp:146-191 | for a text split at its last separator, each of the other six errors is answered if and only if its own cause is there and none before it |
| Bech32.AcceptedLanguage | src/nip19/bech32_internal.hpp:123-194 | a text is accepted for some bytes and free of NUL if and only if it is the encoding of those 32 bytes or its all-upper-case form |
| Bech32.EncodedIsLower | src/nip19/bech32_internal.hpp:233-247 | an encoding is 59 characters longer than its prefix, in lower case and free of NUL |
| Bech32.EncodingInjective | src/nip19/bech32_internal.hpp:233-247 | different keys have different encodings |
| Terminator.VerifiesCarried | src/nip19/bech32_internal.hpp:158-172 | with values up to 32 in the checksum, after any data, the verifier accepts if and only if the symbols they amount to, with the bit that each 32 spills, are the checksum for the register before them; after some data, the generated one |
| Terminator.AcceptedTexts | src/nip19/bech32_internal.hpp:123-194 | the exact language of the decoder for every text, with NUL or without |
| ZeroKey.NulIsAccepted | src/nip19/bech32_internal.hpp:35-42 | a written-out text with a NUL is accepted, although it is no encoding of anything: the hypothesis of `AcceptedLanguage` is needed |
| ZeroKey.ZeroKeyEncodes | src/nip19/bech32_internal.hpp:233-247 | the npub string of the key of 32 zero bytes, written out |
| ExampleKeys.NpubExample | src/nip19/npub.cpp:21-49 | the npub string of an example key, written out character by character, and read back as its 32 bytes |
| ExampleKeys.NsecExample | src/nip19/nsec.cpp:23-37 | the same for the nsec string of an example key |
| Typos.FourTypos | src/nip19/bech32_internal.hpp:123-194 | two accepted texts without NUL that differ, case aside, differ in at least four characters |
| Typos.SpreadTypos | src/nip19/bech32_internal.hpp:123-194 | nor do the differences of two such texts, without NUL, all lie within six characters in a row |
| Typos.TwoTypos | src/nip19/bech32_internal.hpp:123-194 | any two accepted texts, with NUL or without, that differ, case aside, differ in at least two characters |
| ZeroKey.NulTwoTypos | src/nip19/bech32_internal.hpp:35-42 | an accepted text and one with a NUL that differ in exactly two characters next to each other: the condition of the rows on four and on six characters is needed, and two is the most that holds of all texts |
| Nip19.BytesToHex | src/nip19/bech32_internal.hpp:108-117 | the loop writes two lower-case digits a byte |
| Nip19.HexToBytes | src/nip19/bech32_internal.hpp:198-215 | the loop reads pairs of digits; an odd length or a bad digit gives no bytes |
| Nip19.DigitValues | src/nip19/bech32_internal.hpp:203-208 | a character is a digit of value v if and only if it is character v of "0123456789abcdef" or of "0123456789ABCDEF" |
| Nip19.DigitChars | src/nip19/bech32_internal.hpp:108-117 | the digit written for v < 16 is character v of "0123456789abcdef" |
| Nip19.PairValue | src/nip19/bech32_internal.hpp:209-212 | two digits spell sixteen times the first and the second, and nothing else spells a byte |
| Nip19.UnhexDomain | src/nip19/bech32_internal.hpp:198-215 | a text spells bytes if and only if it has an even number of characters, all of them digits |
| Nip19.UnhexAt | src/nip19/bech32_internal.hpp:202-213 | byte i is sixteen times digit 2i and digit 2i + 1 |
| Nip19.UnhexOfHex | src/nip19/bech32_internal.hpp:108-117 | reading what was written gives the bytes back |
| Nip19.HexOfUnhex | src/nip19/bech32_internal.hpp:198-215 | writing what was read gives the text in lower case |
| Nip19.HexToBytes32 | src/nostr/auth_key.cpp:29-52 | the loader fills the array exactly on 64 digits, clears it on a bad digit and leaves it alone on a wrong length |
| Nip19.DecodeNpubToHex | src/nip19/npub.cpp:21-32 | the hexadecimal form of what the decoder answers, or its error |
| Nip19.EncodeNpubFromHex | src/nip19/npub.cpp:34-49 | the encoding of the 32 bytes a text spells, or an error |
| Nip19.DecodeNsecToHex | src/nip19/nsec.cpp:23-37 | the hexadecimal form of what the decoder answers, or its error |
| Nip19.KeysOf64Digits | src/nip19/npub.cpp:34-49 | a text has an npub string if and only if it is 64 digits; any other is rejected as no key |
| Nip19.AnswersPassOn | src/nip19/npub.cpp:21-32 | a key is answered if and only if the decoder yields bytes, which the answer spells; an error is the decoder's |
| Nip19.NpubRoundTrip | src/nip19/npub.cpp:21-49 | every key of 64 digits encodes to 63 characters, which decode to the key in lower case |
| Nip19.HexRoundTrip | src/nip19/npub.cpp:21-49 | every accepted npub text without NUL is what its key encodes to, case aside |
| Nip19.NsecRoundTrip | src/nip19/nsec.cpp:23-37 | a private key survives the nsec text, the decoder and the loader |
| RelayTarget.ParsedSpellsValue | src/net/relay_target.cpp:48-62 | a parsed address spells the text after the scheme; the host is not empty and has no separator, the target starts with a slash, a missing port is the scheme's |
| RelayTarget.ParsesWhen | src/net/relay_target.cpp:48-62 | the text after the scheme parses if and only if it starts with something other than a separator |
| RelayTarget.AddressParses | src/net/relay_target.cpp:20-62 | what an address parses to, with nothing left to another function: host, port 443 for wss:// and 80 for ws:// unless one is written out, and as target the rest from the slash on, a slash and the rest from the question mark on, or a slash |
| RelayTarget.ParsedIsAddress | src/net/relay_target.cpp:33-62 | nothing parses but such addresses |
| RelayTarget.ParsedScheme | src/net/relay_target.cpp:33-46 | only the two WebSocket schemes parse, and the scheme decides whether the relay is secure |
| Bootstrap.WhatParses | src/net/relay_target.cpp:33-62 | an address is secure if and only if something other than a separator follows wss://, and parses if and only if that or the same after ws:// |
| Bootstrap.Deduplicate | src/net/bootstrap_client.cpp:84-98 | the loop with its set of seen addresses yields exactly the addresses that parse, each once, in the order of first occurrence |
| Bootstrap.FilterSupportedRelayUrls | src/net/bootstrap_client.cpp:105-129 | the loop yields exactly the secure addresses, each once, in the order of first occurrence, and counts the places of the insecure ones |
| Bootstrap.EarlyDeduplication | src/net/bootstrap_client.cpp:84-129 | removing repetitions before filtering changes nothing; both give the distinct secure addresses |
| Bootstrap.SupportedMembers | src/net/bootstrap_client.cpp:105-129 | the result has no repetition and holds exactly the secure addresses of the list |
| Bootstrap.SelectedOrder | src/net/bootstrap_client.cpp:84-129 | what is kept of a list, by any condition, stands in the order of first occurrence |
| Bootstrap.QuerySeedRelay | src/net/bootstrap_client.cpp:177-285 | a query succeeds if and only if nothing fails on the way; the list taken is that of kind 10002 if something in it parses, else that of kind 3; the result is exactly its secure addresses in order of first occurrence, or when there are none those of the seed and the two fallbacks; every failure has its text |
| Bootstrap.ResolveRelaysForPubkey | src/net/bootstrap_client.cpp:304-334 | over any answers and exceptions of the seed and the five well-known relays: success if and only if some candidate succeeds, with exactly the addresses and the source of the first that does; otherwise an empty list and the error of the last |
| MultiSession.BootstrapListIsMonitored | src/net/bootstrap_client.cpp:304-334 | a successful result has distinct addresses, each of which starts a session that resolves |
| Reconnect.DelayDoesNotWrap | src/net/relay_session_support.cpp:88-94 | no step of the 32-bit computation wraps: the delay is the doubling base and the jitter, capped at 30000 |
| Reconnect.DelayTable | src/net/relay_session_support.cpp:88-94 | the delay of each attempt written out: 500, 1000, 2000, 4000, 8000 and 16000 ms and the jitter, then 30000 |
| Reconnect.DelaysIncrease | src/net/relay_session_support.cpp:88-94 | delays strictly increase over the attempts up to 7, whatever the jitters, and are 30000 from attempt 7 |
| Reconnect.StreakDelay | src/net/relay_session_support.cpp:88-94 | the waits of a streak; six add up to between 31500 and 33000 ms |
| RelayStatsModel.RelayStats.Reset | src/model_relay_stats.cpp:22-25 | empties the table |
| RelayStatsModel.RelayStats.EnsureRelay | src/model_relay_stats.cpp:27-34 | adds a fresh entry where there is none and changes nothing else |
| RelayStatsModel.RelayStats.SetStatus | src/model_relay_stats.cpp:36-47 | sets status and error of one entry, and the connection time exactly for the status Subscribed |
| RelayStatsModel.RelayStats.IncrementEvent | src/model_relay_stats.cpp:60-65 | adds one to one 64-bit count |
| RelayStatsModel.RelayStats.Aggregate | src/model_relay_stats.cpp:88-101 | the loop, in any order of the entries, counts the entries with each of the two statuses and sums the counts modulo 2^64 |
| RelayStatsModel.EventSumWithout | src/model_relay_stats.cpp:88-101 | the sum of the counts does not depend on the order of the entries |
| RelaySessionModel.RelaySession.constructor | src/net/relay_session.cpp:128-146 | a new session is the initial state of the step system |
| RelaySessionModel.RelaySession.Start | src/net/relay_session.cpp:155-184 | does the Start step: rejects the address, or begins to resolve |
| RelaySessionModel.RelaySession.Stop | src/net/relay_session.cpp:186-208 | does the Stop step: begins to close an open WebSocket, or closes the TCP socket and records Disconnected |
| RelaySessionModel.RelaySession.OnClosed | src/net/relay_session.cpp:197-199 | does the step of a completed close |
| RelaySessionModel.RelaySession.ParseUrl | src/net/relay_session.cpp:210-215 | sets the parsed address, or an empty one |
| RelaySessionModel.RelaySession.OnResolve | src/net/relay_session.cpp:226-242 | does the step of a completed resolve, and touches no other entry |
| RelaySessionModel.RelaySession.OnConnect | src/net/relay_session.cpp:244-272 | does the step of a completed connect, including a failed server name |
| RelaySessionModel.RelaySession.OnTlsHandshake | src/net/relay_session.cpp:274-293 | does the step of a completed TLS handshake |
| RelaySessionModel.RelaySession.OnWsHandshake | src/net/relay_session.cpp:295-336 | does the step of a completed WebSocket handshake: resets the attempts, marks the socket open, writes the request |
| RelaySessionModel.RelaySession.OnWriteReq | src/net/relay_session.cpp:338-345 | does the step of a completed request write |
| RelaySessionModel.RelaySession.OnRead | src/net/relay_session.cpp:354-368 | does the step of a completed read: handles the message, reads on unless stopped |
| RelaySessionModel.RelaySession.HandleMessage | src/net/relay_session.cpp:372-393 | counts an EVENT message and nothing else |
| RelaySessionModel.RelaySession.MarkError | src/net/relay_session.cpp:443-456 | records the error and arms the timer when the policy says so |
| RelaySessionModel.RelaySession.ScheduleReconnect | src/net/relay_session.cpp:468-489 | counts the attempt and arms the timer with its delay |
| RelaySessionModel.RelaySession.ResetTransportForReconnect | src/net/relay_session.cpp:458-466 | clears the flag and closes the TCP socket |
| RelaySessionModel.RelaySession.OnTimer | src/net/relay_session.cpp:481-489 | does the timer step: nothing after an error or Stop, otherwise resolves again |
| SessionRecords.FailureMakes | src/net/relay_session.cpp:443-480 | the whole new state after any failure: the entry records its own stage and message, and the timer is armed with the delay written out, or the session gives up |
| SessionRecords.ErrorsAreCurrent | src/model_relay_stats.cpp:36-47 | in every run the entry has its address, and an error if and only if its status is Error |
| SessionRecords.LastActionTells | src/net/relay_session.cpp:155-490 | in every run before Stop the last action fixes the status and what is in flight; after a failure the error is the stage and the message of that failure; the cases are all that there are |
| SessionRecords.ConnectedSince | src/model_relay_stats.cpp:36-47 | in every run an entry that says Subscribed carries the time of the last successful WebSocket handshake of the run |
| SessionRecords.EventsOfRun | src/net/relay_session.cpp:372-393 | in every run the count has grown by the EVENT messages among its actions, modulo 2^64 |
| SessionRuns.StepKeeps | src/net/relay_session.cpp:155-490 | every enabled step keeps the invariant and moves the chain of operations as the small automaton `NextPending`, `NextAttempt`, `NextStopped` says |
| SessionRuns.RunKeepsInv | src/net/relay_session.cpp:155-490 | every state of every run satisfies the invariant |
| SessionProperties.OneChain | src/net/relay_session.cpp:217-368 | in every run at most one operation is outstanding; it fixes the status before Stop, the flag, and the attempt counter, which never exceeds 6; the connection time is set exactly when Subscribed |
| SessionProperties.GivenUp | src/net/relay_session.cpp:443-490 | a session that was not stopped and waits for nothing has status Error after a failed WebSocket handshake or server name, or after six retries in an early stage; only Stop can come next |
| SessionProperties.FailureOutcome | src/net/relay_session_support.cpp:58-70 | a failure before Stop ends the session if and only if it is one of these; a failed read or request write is always retried as attempt 1 |
| SessionProperties.RetriesEnd | src/net/relay_session.cpp:217-299 | without a successful WebSocket handshake, at most 28 operations complete in any run |
| SessionProperties.RetryBoundReached | src/net/relay_session.cpp:217-299 | a run with exactly 28 |
| SessionProperties.StreakOfRun | src/net/relay_session.cpp:468-480 | in every run the attempt counter counts the reconnects since the last successful handshake and their armed delays add up as one streak, between 31500 and 33000 ms for six |
| SessionProperties.QuietAfterStop | src/net/relay_session.cpp:186-208 | after Stop no timer is armed, and one that is outstanding later was outstanding before; at most six operations complete before nothing is outstanding, and at most one message is handled |
| SessionProperties.QuietBoundReached | src/net/relay_session.cpp:226-368 | a run with exactly six completions and one handled message after Stop |
| SessionProperties.StaysDisconnected | src/net/relay_session.cpp:186-208 | after the first Stop the entry says Disconnected in every continuation if and only if the socket was not open and nothing but a timer was outstanding |
| SessionProperties.SettlesDisconnected | src/net/relay_session.cpp:186-208 | once it says Disconnected after the first Stop, the entry says so for good, in every continuation, if and only if nothing but a timer was outstanding at Stop, open socket or not |
| SessionProperties.RestsClear | src/net/relay_session.cpp:193-206 | after the first Stop every continuation that has nothing in flight any more leaves the flag ws_connected_ clear, if and only if neither the resolve nor the WebSocket handshake was outstanding at Stop; one that was may have succeeded already, while what is begun on the closed socket can only fail |
| SessionProperties.RestsShut | src/net/relay_session.cpp:201-205 | where the flag stays set at rest, the TCP socket is closed all the same in every continuation, if and only if the resolve was not outstanding at Stop |
| MultiSession.Independent | src/net/session_manager.cpp:36-42 | in every interleaving of sessions with distinct addresses over one table, each session runs as if alone |
| MultiSession.OrderDoesNotMatter | src/net/session_manager.cpp:36-42 | two interleavings with the same steps of each session end in the same world |
| MultiSession.EventsAreCounted | src/model_relay_stats.cpp:60-65 | in every interleaving from any table, with repeated addresses too, the sum of the counts grows by the number of EVENT messages handled, modulo 2^64 |
| MultiSession.Agreement | src/model_relay_stats.cpp:88-101 | for distinct addresses over any table, without Stop and once all are started, what Aggregate reports is what the sessions are doing and what entries for other addresses say |
| MultiSession.AgreementNeedsDistinct | src/model_relay_stats.cpp:88-101 | the exact condition: the two relay counts agree with the sessions in every such interleaving if and only if no address is repeated |
| MultiSession.RepeatedAddressMiscounts | src/model_relay_stats.cpp:27-34 | for every list with a repeated address, an interleaving in which all sessions have failed and only as many errored relays are counted as there are different addresses |
| MultiSession.MonitoredTwice | src/model_relay_stats.cpp:27-34 | such a list of an address that a bootstrap can yield: two failed sessions, one errored relay |
| SessionManagerModel.SessionManager.StopAll | src/net/session_manager.cpp:56-67 | stops the sessions in order and forgets them |
| SessionManagerModel.SessionManager.Start | src/net/session_manager.cpp:29-43 | stops what runs, then creates and starts one session for each address, in order |
| SessionManagerModel.StartIsInterleaving | src/net/session_manager.cpp:36-42 | what Start leaves over a table is reached by start steps of new sessions |
| SessionManagerModel.StartedAgree | src/net/session_manager.cpp:29-43 | after Start of distinct addresses over any table, in any interleaving without Stop, Aggregate reports what the sessions are doing and what the table held for other addresses |
| SessionManagerModel.RestartAgrees | src/net/session_manager.cpp:29-43 | after a second Start, while the stopped sessions take no step, the relay counts agree if and only if no entry left for another address says Subscribed or Error |
| SessionManagerModel.ForgottenSessionInterferes | src/net/session_manager.cpp:63-66 | a stopped and forgotten session with a resolve in flight writes Error over the entry of the new session for its address |
| Restart.RestartCondition | src/net/session_manager.cpp:29-43 | after a second Start, in every interleaving of the stopped sessions with the new ones, the relay counts agree with the new sessions if and only if, when they were stopped, the old ones had nothing outstanding but timers and no close in flight for an address used again, and no entry for another address says Subscribed or Error |
| Restart.StopAllForgets | src/net/session_manager.cpp:56-67 | stopping the running sessions of distinct addresses leaves sessions such as the condition is about |
| Restart.ReachedIsRunning | src/net/session_manager.cpp:36-42 | the started sessions of every interleaving are such running sessions |
| Restart.StartsBeside | src/net/session_manager.cpp:36-42 | starting the new sessions beside the old ones leaves of them and the table what Start leaves |
| SessionManagerModel.MonitoringAgrees | src/net/session_manager.cpp:29-43 | from a successful bootstrap result through Start and any interleaving without Stop, Aggregate reports the sessions that write or read, those that wait for a timer or for nothing, and every handled EVENT message below 2^64 |

## Left out

- Sockets, TLS, DNS, HTTP and the event loop: an asynchronous operation is a token that is outstanding until the environment completes it.
- The dispatch of Start and Stop to a strand: the manager's loops do those steps in place, and the interleavings of `MultiSession` let a Start come at any time.
- JSON: a relay message is given by its effect, and a seed relay's answer by its list of addresses.
- AUTH messages and the signer, the fetch of NIP-11 documents, and latency records: they change neither the chain of operations nor the status or the event count.
- The order in which `Snapshot` sorts the entries, and the list of supported NIPs: sorting by the standard library.
- A second Start of a session, Reset of the table while sessions run, and changing the AUTH key: the code gives no ordering to prove there.
- Locks and threads: every method of the table is one step.
- Wiping secrets from memory has no effect on results.
- Error texts are kept as constructors with the stage and the message, not as concatenated strings.
- RelaySessionModel.RelaySession.ResetTransportForReconnect: states the flag and the closed TCP socket; the resolver and the read buffer are not part of this model.
- Regrouping.ConvertBits: takes and returns what the caller's vector holds as values; after a failure it says only that nothing held was removed.
- RelaySessionModel.RelaySession.HandleMessage: leaves out the AUTH reply and the latency record, which touch neither the chain of operations nor the status or the event count.
- RelaySessionModel.RelaySession.OnWsHandshake: leaves out the fetch of the NIP-11 document, which is posted to another pool and has no successor in the chain.
- SessionManagerModel.RestartAgrees: covers only the steps of the new sessions; `Restart.RestartCondition` lets the stopped ones take steps, too.
- Distance.MinimumDistance: stops at three errors, which the roots of the generator give for up to 1023 symbols; that four errors are detected in up to 89 symbols is a claim of BIP-173 found by exhaustive search and is not proved here.
- The user interface, the log and the command processor.
