# filetransfer: the byte-level protocol, modelled in Dafny

`filetransfer` moves one file between two hosts of a local network: the
receiver advertises itself over mDNS and listens for TLS with a fresh
self-signed certificate, the sender finds it and dials, both sides show a
word phrase derived from the TLS session and ask their operator to confirm it,
then the sender writes a fixed 100-byte header carrying the file's base name
and streams the file body.

This project models the parts of that exchange that are logic rather than
plumbing:

- `bytes.dfy` (module `Bytes`): Go's `byte` and `string` (`seq<Byte>`), Option
  and Result.
- `framing.dfy` (module `Framing`): the header. `BaseName` is `path.Split`'s
  file part; `EncodeHeader` fills a zero-initialised 100-byte array with the
  name and a zero terminator, returning Go's index-out-of-range panic for names
  of 100 bytes or more; `DecodeHeader` is the receiver's loop that stops at the
  first zero byte and appends `string(char)` for every byte before it.
  `string(char)` converts a byte to a rune, so a byte `b >= 0x80` becomes the
  two bytes `0xC0|(b>>6)`, `0x80|(b&0x3F)` (`RuneBytes`). The round trip
  therefore holds for names of 7-bit ASCII bytes, and fails for every name
  with a byte of 0x80 or more.
- `gate.dfy` (module `Gate`): the operator's answer to "Continue [Y/n]?".
- `transfer.dfy` (module `Transfer`): the `send` and `receive` flows as event
  traces (`Send`, `Receive`). Network, terminal and file-system results are
  inputs to these flows. The lemmas cover the order of the steps, the fatal
  exits, and the end-to-end arrival of a name.
- `identity.dfy` (module `Identity`): the certificate template of
  `GenerateCertificate`. It covers the 365-day validity window and the
  serial-number bound. It also covers the Subject Alternative Names of
  section 4.2.1.6 of RFC 5280: the host name is split on commas, and each part
  goes to the IP-address list when `net.ParseIP` accepts it (an abstract
  function here) and to the DNS-name list otherwise.

A byte-exact round trip of the name, and a length check before dialing, are
the evident intent of the framing; the code does neither. The model follows
the code and records both points under "## Findings".

## Model

| member | source | states |
|---|---|---|
| `Framing.LastSlash` | cmd/filetransfer/main.go:75 | the index of the last '/' of the path, or -1: a '/' is there and none after it |
| `Framing.BaseName` | cmd/filetransfer/main.go:75 | the file name is the longest suffix of the path without '/', preceded by '/' when shorter than the path |
| `Framing.Header` | cmd/filetransfer/main.go:76-79 | the header is exactly 100 bytes: the name's bytes, then a zero byte, then zeros to the end |
| `Framing.EncodeHeader` | cmd/filetransfer/main.go:76-79 | the header loop yields that 100-byte header for a name of at most 99 bytes, and panics with index 100 on a length-100 buffer for any longer name |
| `Framing.HeaderInjective` | cmd/filetransfer/main.go:76-79 | two different zero-free names that fit never produce the same header |
| `Framing.NulIndex` | cmd/filetransfer/main.go:191-194 | decoding stops at the first zero byte: every byte before it is non-zero, and it is the header length when there is no zero |
| `Framing.RuneBytes` | cmd/filetransfer/main.go:195 | `string(char)` keeps a byte below 0x80 and turns any other byte into a two-byte UTF-8 sequence whose code point is that byte |
| `Framing.DecodeName` | cmd/filetransfer/main.go:190-196 | the received name, read as UTF-8, spells the header bytes before the first zero byte, and is longer than them by the number of those bytes that are 0x80 or more |
| `Framing.DecodeHeader` | cmd/filetransfer/main.go:190-196 | the receiver's loop builds `string(char)` of each byte before the first zero byte |
| `Framing.RuneStringSnoc` | cmd/filetransfer/main.go:195 | appending one more byte's `string(char)` extends the name by that byte's UTF-8 encoding |
| `Framing.RuneStringLength` | cmd/filetransfer/main.go:195 | each byte of 0x80 or more adds two bytes to the name, each other byte one |
| `Framing.RuneStringAscii` | cmd/filetransfer/main.go:195 | on 7-bit ASCII bytes `string(char)` leaves the bytes unchanged |
| `Framing.HighCountBound` | cmd/filetransfer/main.go:195 | at most every byte of a prefix is widened |
| `Framing.HighCountPositive` | cmd/filetransfer/main.go:195 | a prefix with a byte of 0x80 or more has at least one byte to widen |
| `Framing.DecodeNameLength` | cmd/filetransfer/main.go:190-196 | the decoded name consumes at most the header's bytes and is at most twice as long as the header |
| `Framing.HeaderPrefix` | cmd/filetransfer/main.go:76-79 | the header agrees with the name up to the name's first zero byte, and its own first zero byte is at the same place |
| `Framing.DecodeHeaderOf` | cmd/filetransfer/main.go:190-196 | decoding the header of a name gives the widened bytes of that name up to its first zero byte: a zero byte inside the name truncates it |
| `Framing.AsciiRoundTrip` | cmd/filetransfer/main.go:190-196 | a name of at most 99 bytes, without zero bytes and all below 0x80, decodes to itself |
| `Framing.Utf8RunesOfRuneString` | cmd/filetransfer/main.go:195 | reading the widened bytes as UTF-8 gives back the original bytes as code points |
| `Framing.NonAsciiNameIsReencoded` | cmd/filetransfer/main.go:195 | the UTF-8 name "café" arrives as "cafÃ©", so it does not round-trip |
| `Framing.NonAsciiNeverRoundTrips` | cmd/filetransfer/main.go:195 | no zero-free name of at most 99 bytes that has a byte of 0x80 or more decodes to itself |
| `Framing.DecodeNameBytes` | cmd/filetransfer/main.go:190-196 | the intended decoding: the longest zero-free prefix of the header |
| `Framing.BytesRoundTrip` | cmd/filetransfer/main.go:190-196 | with the intended decoding, every zero-free name of at most 99 bytes round-trips byte for byte |
| `Gate.ToLower` | cmd/filetransfer/main.go:232 | lower-casing maps each byte through the ASCII letter mapping, keeps the length, and leaves no upper-case ASCII letter |
| `Gate.Proceeds` | cmd/filetransfer/main.go:232-235 | the transfer goes on if and only if the typed line is empty or starts with 'y' or 'Y' |
| `Gate.OnlyFirstByteMatters` | cmd/filetransfer/main.go:233 | two non-empty answers with the same first byte get the same decision |
| `Gate.Answers` | cmd/filetransfer/main.go:229-235 | "", "Y" and "yes" proceed; "n", "x" and "no" abort |
| `Transfer.Send` | cmd/filetransfer/main.go:47-91 | the sender as written: it panics exactly when the steps up to confirmation succeed and the base name has 100 bytes or more; it completes exactly when every step succeeds and the name fits, after dialing, showing the phrase, sending the framed base name and the body |
| `Transfer.SendChecked` | cmd/filetransfer/main.go:75-79 | the corrected sender never panics; it refuses with NameTooLong exactly for base names of 100 bytes or more, and then with no network event |
| `Transfer.Receive` | cmd/filetransfer/main.go:140-213 | the receiver never panics; it completes exactly when every step succeeds, the operator confirms and the header read is a full, error-free 100 bytes, and then creates the file named by decoding that header |
| `Transfer.SendGatedByOperator` | cmd/filetransfer/main.go:59-87 | the sender writes header or body only after it found the receiver, dialed, showed the phrase and got a confirmation; its trace then starts with the dial and the phrase |
| `Transfer.SentHeaderIsFramed` | cmd/filetransfer/main.go:75-80 | the header on the wire is the 100-byte framing of the file's base name, which then has at most 99 bytes |
| `Transfer.LongNamePanicsAfterDial` | cmd/filetransfer/main.go:65-79 | as written, a base name of 100 bytes or more ends in a panic after the connection was dialed and the phrase shown |
| `Transfer.CheckedSendRejectsEarly` | cmd/filetransfer/main.go:75-79 | the corrected sender refuses such a name before any network event, never panics, and otherwise behaves as the sender as written |
| `Transfer.FileCreatedOnlyAfterFullHeader` | cmd/filetransfer/main.go:179-199 | a destination file is created only after a confirmation and a complete 100-byte, error-free header read, and is named by decoding that header |
| `Transfer.ShortHeaderCreatesNothing` | cmd/filetransfer/main.go:181-188 | a header read that fails or returns fewer than 100 bytes is fatal before any file is created |
| `Transfer.ReceiveGatedByOperator` | cmd/filetransfer/main.go:179-199 | a declined phrase on the receiving side is fatal and creates no file |
| `Transfer.AsciiNameArrives` | cmd/filetransfer/main.go:181-204 | a header sent for an ASCII base name, read whole by a receiver whose steps succeed, creates a file with exactly that name |
| `Transfer.TraversalNameIsKept` | cmd/filetransfer/main.go:197 | the decoded name is not filtered: a crafted header naming "../x" creates "../x" |
| `Identity.Split` | pkg/encryption/generate_cert.go:57 | the host name splits into at least one part, none containing a comma |
| `Identity.JoinSplit` | pkg/encryption/generate_cert.go:57 | joining the parts with commas gives back the host name |
| `Identity.SplitLength` | pkg/encryption/generate_cert.go:57 | a host name with k commas gives k + 1 parts (an empty host name one empty part) |
| `Identity.SplitJoin` | pkg/encryption/generate_cert.go:57 | comma-free parts are recovered by splitting their join |
| `Identity.IpEntries` | pkg/encryption/generate_cert.go:58-60 | the IP-address list has at most one entry per part, and each entry is the parse of some host part |
| `Identity.DnsEntries` | pkg/encryption/generate_cert.go:58-63 | the DNS-name list has at most one entry per part, and each entry is a host part that does not parse as an IP |
| `Identity.AddSubjectAltNames` | pkg/encryption/generate_cert.go:58-64 | the loop collects exactly the parsed IP parts into the IP list and the other parts into the DNS list, in order |
| `Identity.EntriesPartition` | pkg/encryption/generate_cert.go:58-63 | every part lands in exactly one list: the two lengths add up to the number of parts |
| `Identity.IpEntriesPrefix` | pkg/encryption/generate_cert.go:60 | the IP list of a prefix of the parts is a prefix of the IP list |
| `Identity.DnsEntriesPrefix` | pkg/encryption/generate_cert.go:62 | the DNS list of a prefix of the parts is a prefix of the DNS list |
| `Identity.IpPartListed` | pkg/encryption/generate_cert.go:59-60 | every part that parses as an IP is in the IP-address list, as its parsed address, at its rank among the IP parts |
| `Identity.DnsPartListed` | pkg/encryption/generate_cert.go:59-62 | every part that does not parse as an IP is in the DNS-name list, unchanged, at its rank among the DNS parts |
| `Identity.IpPartPlaced` | pkg/encryption/generate_cert.go:59-60 | of two IP parts, the earlier one comes earlier in the IP-address list |
| `Identity.DnsPartPlaced` | pkg/encryption/generate_cert.go:59-62 | of two DNS parts, the earlier one comes earlier in the DNS-name list |
| `Identity.CertificateTemplate` | pkg/encryption/generate_cert.go:22-64 | fails on a host-name or serial error, otherwise NotAfter - NotBefore is 365 days (31,536,000 s), the serial lies in [0, 2^128), the subject, key usages and basic constraints are fixed, and the SANs are the classification of the comma-split host name |

## Findings

| source | as written | input that shows it | evidently intended | confidence | as-written member | corrected member |
|---|---|---|---|---|---|---|
| cmd/filetransfer/main.go:195 | each header byte is appended with `string(char)`, which treats it as a rune and widens every byte of 0x80 or more to two bytes | a file named "café" (bytes 63 61 66 C3 A9) is created as "cafÃ©" (63 61 66 C3 83 C2 A9) | keep the bytes before the terminator as they are, so any zero-free name round-trips | high (not executed) | `Framing.NonAsciiNeverRoundTrips` | `Framing.BytesRoundTrip` |
| cmd/filetransfer/main.go:75-79 | the base name is never measured; the header loop indexes past the 100-byte buffer only after the peer was dialed and the phrase confirmed | any base name of 100 bytes or more | refuse the name before looking for the receiver | medium (not executed) | `Transfer.LongNamePanicsAfterDial` | `Transfer.CheckedSendRejectsEarly` |

The receiver flow `Transfer.Receive` keeps the decoding as written
(`Framing.DecodeName`), because that is what the program does; the corrected
decoding is stated beside it.

## Left out

- TLS listening, dialing, accepting and the handshake (cmd/filetransfer/main.go:65-71, 158-178): network I/O and library calls. They are boolean inputs of `Send` and `Receive`.
- The verification phrase (cmd/filetransfer/main.go:216-227): keying-material export and BIP-39 mnemonic generation are library calls. Their success or failure is the input `phraseOk`.
- mDNS advertisement and browsing, the advertising goroutine with its stop channel, and the 5-second ticker racing the 15-second browse context (cmd/filetransfer/main.go:93-137, 150-151, 207): concurrency and network code. Only "receiver found or not" reaches `Send`.
- Streaming the file body with `io.Copy` (cmd/filetransfer/main.go:87, 205): stream I/O with no framing. It appears as the events `BodySent` and `BodyReceived`. The receiver ignores a failing copy, and so does the model.
- `os.Stat`, `os.Open`, `os.Create`, the stdin scanner and the mode dispatch in `main` (cmd/filetransfer/main.go:28-55, 141-148, 199, 230-231): CLI and file-system plumbing. The operator's typed line is a parameter.
- `path.Join` of the destination folder and the decoded name (cmd/filetransfer/main.go:197): its `path.Clean` semantics are not modelled. `Transfer.TraversalNameIsKept` records that the name is not filtered before it.
- `conn.Read` of the header (cmd/filetransfer/main.go:182): a TLS read may return fewer bytes than were sent. The model takes the read's bytes and error as an input (`ReadResult`) and does not model record boundaries.
- `Transfer.Send`: the error of `conn.Handshake()` (line 71) and of `conn.Write(header)` (line 80) is ignored by the source; the model has no events for them.
- Key generation, `x509.CreateCertificate`, PEM and PKCS#8 encoding (pkg/encryption/generate_cert.go:28, 66-86): cryptographic library calls. The template they consume is modelled. The error of `ed25519.GenerateKey` is overwritten in the source (line 28) and plays no part.
- `net.ParseIP` (pkg/encryption/generate_cert.go:59): its grammar is a library matter. It is the abstract parameter `parseIP`.
- `rand.Int` (pkg/encryption/generate_cert.go:39): the draw is a parameter, and its promised range [0, 2^128) is a precondition of `Identity.CertificateTemplate`.
- `Identity.CertificateTemplate`: `time.Now()` is the parameter `now`, in nanoseconds. The monotonic clock reading and the saturation of `Time.Add` at the ends of its range are not modelled.
- `Gate.ToLower`: only the ASCII letters 'A'..'Z' are mapped. Unicode case mapping of other runes and the replacement of invalid UTF-8 are not modelled. No rune other than 'Y' and 'y' lower-cases to a string starting with the byte 'y', so `Gate.Proceeds` decides as the source does.
