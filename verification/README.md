# A verified model of the Lumine proxy core

Lumine is a TCP/TLS proxy that re-cuts and disguises TLS traffic. This project models the parts of it whose correctness
does not depend on the operating system, and proves what they promise for all inputs, all runs and all ways of cutting
a stream into calls.

Code that works by changing state is modelled as methods and classes. Each is proved against a specification function
of the same behaviour (`SendRecords` against `SendScript`, `TunPolicyConn.Write` against `Step`, `Reader.Read` against
`ReadStep`), and the theorems are about those functions and about runs of them.

| file | models |
|---|---|
| `Bytes.dfy`, `Arith.dfy` | octets, big-endian fields, concatenation; division with remainder |
| `ClientHello.dfy` | the offset parser for ClientHello records and the grammar it recognises |
| `Wire.dfy`, `Sink.dfy` | a connection as the trace of its steps, and an underlying writer; both may fail at any point |
| `Fragment.dfy`, `Reassembly.dfy`, `Traces.dfy` | re-cutting one record into records and writes; what the peer reassembles; the writes one by one |
| `Policy.dfy` | connection policies and their merging |
| `TunBridge.dfy`, `TunRuns.dfy`, `TunDelivery.dfy`, `TunPolicy.dfy` | the buffering connection of the TUN device; all its runs, healthy and failing; what they deliver; which policy they obey |
| `ShadowAead.dfy`, `ShadowReader.dfy`, `ShadowTamper.dfy` | both sides of the Shadowsocks AEAD stream; reading wires that were altered |
| `SimpleObfs.dfy` | simple-obfs in TLS mode |
| `IPPool.dfy` | ranking, weighting and weighted round robin |
| `TtlRules.dfy`, `TtlSearch.dfy` | the TTL rule language; the search for the minimal TTL |
| `TransformIp.dfy`, `ExpandPattern.dfy` | moving addresses into a prefix; expanding patterns |
| `Socks5.dfy` | SOCKS5 addresses and datagrams |

## Where to start

- `TunDelivery.HelloIsDelivered`: over every sequence of writes, a forwarded ClientHello reaches the peer as records that
  reassemble to its handshake octets, followed by the rest of the stream once and in order; if the connection fails, a
  beginning of that. It rests on `TunRuns.EveryRun`, `Reassembly.HandshakePreserved` and `ClientHello.SniInBounds`, and
  `TunDelivery.DisguiseIsDelivered` applies it to the ClientHello that another part of the repository prints.
- `TunPolicy.DomainTakesPrecedence`, `TunPolicy.DomainRefuses` and `TunPolicy.RecordsAreCutInName`: which policy a run
  obeys, and what that means for the octets on the wire.
- `ClientHello.ParsesExactlyTheGrammar` and `SimpleObfs.DisguiseParses`: the parser accepts exactly a grammar, and one
  part of the repository reads what another part prints.
- `ShadowReader.RoundTrip`, `ShadowReader.BrokenRoundTrip`, `ShadowAead.NoncesNeverRepeat`, `SimpleObfs.WriteThenRead`:
  stream round trips for every pattern of writes and reads, and what is left of them when the wire breaks off;
  `ShadowTamper.EveryReadIsOpened` and `ShadowTamper.TamperedWire` for wires of any content.
- `IPPools.IPPool.Round`, `IPPools.FairRun` and `IPPools.FairForeverIff`: weighted fairness, as callers of `Get` see it,
  and exactly when it survives the counter's wrap.

## Where the code does not meet its intent

Each of these is kept in the model as the code has it, with the exact condition proved by the lemmas named.

- Fragmenting panics for a single record with "one segment per record" (a negative capacity), and for a ClientHello
  without a server name as soon as a cut is needed; so does the decoy mode (`Reassembly.PanicsExactlyWhen`,
  `TunDelivery.CrashesExactlyWhen`; `TunDelivery.CrashingRun` is a concrete run).
- When the first TLS record cannot be parsed, the octets that arrived behind it in the same write are sent twice
  (`TunDelivery.ExactlyOnceIff`, with a concrete run in `TunDelivery.DuplicatedTail`).
- `Writer.ReadFrom` seals an empty chunk with two nonces while the reader consumes one
  (`ShadowReader.ReadFromInSyncIff`).
- The AEAD reader goes on after a seal that did not open, so a caller that reads on gets the stream with a hole
  (`ShadowTamper.HoleAfterFailure`; without a failure there is none, `ShadowTamper.TamperedWire`); and a wire that breaks
  off right behind a length ends like a complete one (`ShadowTamper.CleanEndIff`).
- The simple-obfs reader reports neither data nor an error when the connection ends inside a frame's length
  (`SimpleObfs.SilentIff`).
- Merging a policy list whose tail was merged beforehand can leave TTL defaults behind (`Policies.NestedMerge`,
  `Policies.NestingShows`).
- A pool is unfair to its last entry in the run that straddles the counter's wrap, unless the total weight divides 2^32
  or there is one entry (`IPPools.UnfairAtWrap`, `IPPools.FairForeverIff`).
- A SOCKS5 destination with a name longer than 255 octets, or with neither name nor address, is serialised to something
  that is not split off as written (`Socks5.SplitsOffIff`); and an empty name is split off though it is never serialised
  (`Socks5.SplitsExactly`).
- `internal/tunnel.go:20-21` gives access_denied the number 70 and protocol_version the number 49; section 6 of RFC 8446
  has them the other way round. Every alert therefore carries the number assigned to the other cause
  (`TunDelivery.AlertNumbersSwapped`); which alert goes out when is exact in `TunDelivery.RefusedIff`.

## Model

| member | source | states |
|---|---|---|
| `ClientHello.ParseClientHello` | internal/utils.go:36-157 | On any record of at least five octets the moving-offset parser returns `ParseHello`: same error, version, name range and flags; no index leaves the data. |
| `ClientHello.ScanLoop` | internal/utils.go:111-155 | The extension loop terminates and accumulates what the recursive scan finds, on well-formed and malformed blocks. |
| `ClientHello.ReadSni` | internal/utils.go:129-153 | A name that is reported starts five octets into the extension and ends inside it. |
| `ClientHello.SniInBounds` | internal/utils.go:36-157 | For any input and any outcome, either no name is reported or it lies at octet 58 or later and inside the data. |
| `ClientHello.ScanPrinted` | internal/utils.go:109-156 | Completeness of the loop: every printed extension list (with fewer than four slack octets) scans without error to what the abstract list says. |
| `ClientHello.ScanAccepts` | internal/utils.go:109-156 | Soundness of the loop: a block that scans without error is the print of some list of extensions whose first server_name is well formed. |
| `ClientHello.ParsesLaidOut` | internal/utils.go:66-157 | A record with a good head whose vectors print an abstract body parses to the report of that body. |
| `ClientHello.AcceptedIsLaidOut` | internal/utils.go:36-157 | A record that parses has a good head and vectors derived by the grammar. |
| `ClientHello.ParsesExactlyTheGrammar` | internal/utils.go:36-157 | Parsing succeeds if and only if the grammar derives the whole record, both headers included, octet by octet. |
| `ClientHello.ParsesPrinted` | internal/utils.go:36-157 | Round trip: every printed ClientHello (section 4.1.2 of RFC 8446) parses; key_share and ECH flags are true exactly when their types are listed. |
| `ClientHello.NameOfLaidOut` | internal/utils.go:129-153 | The reported range of any record that the grammar derives holds exactly the host name of its first server_name extension (section 3 of RFC 6066). |
| `ClientHello.ReportedNameIsHost` | internal/utils.go:129-153 | The same of a printed ClientHello. |
| `ClientHello.NamesIff` | internal/utils.go:129-153 | Of a record that parses, the octets in the reported range are the name the grammar gives it, and there is no range if and only if there is no name. |
| `ClientHello.KeyShareIff` | internal/utils.go:121-123 | Of a record that parses, the key_share flag is true if and only if the grammar derives it with that extension listed. |
| `Wire.Conn.Do` | internal/oob_unix.go:12-41 | One fallible step on a connection: recorded in the trace if it succeeds; a failing send may get any number of its octets out, and ends the connection. |
| `Wire.PerformSendsPrefix` | internal/fragment.go:28-66 | Steps performed in order up to the first failure send a beginning of what all of them would send, and fail exactly when too few good steps are left. |
| `Wire.PerformBehind` | internal/fragment.go:28-66 | Of two connections the one that fails earlier sends a beginning of what the other sends. |
| `Fragment.LastDot` | internal/utils.go:18-18 | The last dot of a name, or -1 if there is none. |
| `Fragment.FindLastDotOrMidPos` | internal/utils.go:17-23 | The cut stands at a dot of the name behind which there is none; without a dot the left half is no longer than the right one and at most one octet shorter. |
| `Fragment.Split` | internal/fragment.go:157-184 | Splitting into n pieces loses nothing, gives between 1 and n pieces, n of them when the data suffice, and none empty unless the data are. |
| `Fragment.ChopAt` | internal/fragment.go:170-177 | Piece i starts at i times the base size; the last piece runs to the end. |
| `Fragment.SplitAt` | internal/fragment.go:170-177 | Piece i of n is the slice from i to i + 1 times the quotient, the last one running to the end. |
| `Fragment.Patched` | internal/fragment.go:23-25 | Octet 2 becomes 4 if asked, and no other octet changes. |
| `Fragment.MakeRecord` | internal/fragment.go:186-192 | The filled buffer is header, 16-bit length and payload. |
| `Fragment.SplitAndAppend` | internal/fragment.go:157-184 | The appended pieces are those of `Split`, framed when a header is given; what was there stays in front. |
| `Fragment.SendPackets` | internal/fragment.go:54-67 | The packet loop performs one send and one wait per packet, the first urgent if asked, and stops at the first failure. |
| `Fragment.SendChunks` | internal/fragment.go:79-110 | The per-record loop performs the scripted sends, including the urgent variants of the first two records. |
| `Fragment.SendSegments` | internal/fragment.go:134-154 | The segment loop sends exactly the pieces of `Split`, in order. |
| `Fragment.SendLead` | internal/fragment.go:28-40 | The two urgent sends and the wait that carry the first 35 octets. |
| `Fragment.SendMerged` | internal/fragment.go:117-154 | Urgent head, then one write or equal segments of the rest. |
| `Fragment.SendOneRecord` | internal/fragment.go:27-69 | The single-record path performs `OneRecordScript`, with its failure and panic outcomes. |
| `Fragment.SendManyRecords` | internal/fragment.go:71-154 | The several-records path performs `ManyRecordsScript`, with its failure and panic outcomes. |
| `Fragment.SendRecords` | internal/fragment.go:12-155 | The buffer is changed in its version octet only if asked; the connection sees exactly the scripted steps up to its first failure; the outcome is that of the script. |
| `Reassembly.PanicsExactlyWhen` | internal/fragment.go:47-53 | Sending panics if and only if one record is to be sent with segments -1, or no name was found and a cut is needed. |
| `Reassembly.DeframeFramed` | internal/fragment.go:157-192 | Deframing a concatenation of made records returns their headers and fragments, so every length field is right. |
| `Reassembly.FragmentsOf` | internal/fragment.go:71-77 | The fragments make up the record payload, there are between 2 and `records` of them, each fits a length field, and none is empty if and only if something follows the cut. |
| `Reassembly.ManyRecordsReassemble` | internal/fragment.go:71-155 | With two records or more, and whatever segments and urgent options, the stream deframes into records with the shared header whose fragments are those of the cut; none is empty if and only if the name does not start at the very end of the record. |
| `Reassembly.OneRecordIsIdentical` | internal/fragment.go:27-69 | With one record, the octets on the wire (fillers erased) are the record itself, apart from octet 2 when the version is patched. |
| `Reassembly.HandshakePreserved` | internal/fragment.go:12-192 | Main theorem: whenever sending does not panic, the peer deframes between 2 and `records` records (one if one was asked for) that share the possibly patched header and whose fragments concatenate to exactly the original payload (section 5.1 of RFC 8446); none is empty exactly when the name does not start at the end of the record. |
| `Reassembly.NameIsTorn` | internal/fragment.go:71-77 | For any number of records from two on: no record holds the whole server name if and only if the name has two octets or more and its last dot is not its first, or the first piece behind the cut is shorter than the name. |
| `Traces.PacketsAt` | internal/fragment.go:54-67 | Packet by packet: one write each, waited for, and only the first one urgent, with a zero octet beyond its data, if asked. |
| `Traces.OneRecordWrites` | internal/fragment.go:27-69 | Which writes one record becomes and which of them are urgent: the two of the head under oobex, then the body in one piece, or in pieces around the cut of which the first carries a filler under oob. |
| `Traces.ManyRecordsWrite` | internal/fragment.go:71-155 | The same of several records: one write each, with the urgent octets of the first two, or merged behind the head and cut into equal pieces. |
| `Traces.NoneUrgentUnasked` | internal/fragment.go:12-155 | Without oob and oobex nothing is sent urgently. |
| `Traces.RecordsMeetInName` | internal/fragment.go:71-77 | With several records, two of them meet exactly at the last dot of the name, or in its middle. |
| `Traces.PacketsMeetInName` | internal/fragment.go:47-53 | With one record in several segments, two writes meet exactly there. |
| `Policies.MergePolicies` | internal/policy.go:431-518 | The merging loop equals the right fold over the list, normalised. |
| `Policies.FirstSetIsFirst` | internal/policy.go:442-509 | `FirstSet` is the value of the first policy that sets a setting, and unset exactly when none does. |
| `Policies.FoldIsFirstSet` | internal/policy.go:442-509 | Before normalisation each of the 22 settings is the first set one, for lists of any length. |
| `Policies.GetNormalize` | internal/policy.go:178-209 | What normalisation does, setting by setting, given the final mode. |
| `Policies.MergeIsFirstSet` | internal/policy.go:431-518 | Each setting of the result is the first set one, normalised; the mode likewise. |
| `Policies.NestedMerge` | internal/policy.go:779-781 | Nested and flat merging agree on a setting if and only if it is not a TTL setting defaulted by the inner merge, left unset before it, under a final mode other than ttl-d. |
| `Policies.NestingShows` | internal/tun_bridge.go:152-158 | A concrete pair of policies on which nesting shows. |
| `TunBridge.MergeTwo` | internal/tun_bridge.go:155-155 | Merging a domain policy over the plan keeps record and segment counts in the range the loader admits. |
| `TunBridge.TunPolicyConn.constructor` | internal/tun_bridge.go:41-58 | A new connection has handled nothing and holds nothing. |
| `TunBridge.TunPolicyConn.FlushPending` | internal/tun_bridge.go:119-129 | Held octets are written in one piece and forgotten, also when the write fails. |
| `TunBridge.TunPolicyConn.Refuse` | internal/tun_bridge.go:139-168 | An alert, if any, then close; errors are ignored. |
| `TunBridge.TunPolicyConn.DesyncSend` | internal/tun_bridge.go:179-189 | TTL probe if needed, then the decoy; each step may fail. |
| `TunBridge.TunPolicyConn.SendDecoy` | internal/desync_linux.go:164-211 | The socket is asked for its TTL, the part before the cut goes out behind a decoy, then the rest; without a server name the cut panics after the query. |
| `TunBridge.TunPolicyConn.Treat` | internal/tun_bridge.go:170-192 | The record is sent as its mode says, with the outcome of the script. |
| `TunBridge.TunPolicyConn.HandleTLSRecord` | internal/tun_bridge.go:131-197 | The verdict on the first record and the steps it leads to. |
| `TunBridge.TunPolicyConn.HandlePending` | internal/tun_bridge.go:82-117 | Handling a ready buffer reaches exactly the state `Handle` gives, including every error state. |
| `TunBridge.TunPolicyConn.Write` | internal/tun_bridge.go:60-80 | `Write` is one transition of the state machine, reply included. |
| `TunRuns.StepKeepsFlags` | internal/tun_bridge.go:60-117 | No step reverts `handled` or `closed`, and what was sent stays sent. |
| `TunRuns.RunKeepsFlags` | internal/tun_bridge.go:60-117 | The same along every run. |
| `TunRuns.StepPerforms` | internal/tun_bridge.go:60-117 | Every write, from any state and over any connection, performs a list of steps that does not depend on the connection, up to the first failure. |
| `TunRuns.HealthyExplained` | internal/tun_bridge.go:60-197 | For every sequence of writes over a connection that holds, flags, buffer and output are explained by the octets written so far. |
| `TunRuns.RunPerforms` | internal/tun_bridge.go:60-197 | A run over any connection performs what the healthy run performs, as far as the connection allows, and ends in the same state if it does not fail. |
| `TunRuns.EveryRun` | internal/tun_bridge.go:60-197 | Both together, for every sequence of writes and every point at which the connection may fail. |
| `TunRuns.FailingRunSendsPrefix` | internal/tun_bridge.go:60-197 | A run sends a beginning of what the healthy run sends, fails exactly when it has fewer good steps than that run takes, and otherwise sends all of it. |
| `TunRuns.RunBehind` | internal/tun_bridge.go:60-197 | Of two runs over the same writes the one that fails earlier sends a beginning of what the other sends. |
| `TunDelivery.HeldBack` | internal/tun_bridge.go:71-97 | Until the first record is complete nothing is sent and `pending` is everything accepted, over any connection. |
| `TunDelivery.ExactlyOnceIff` | internal/tun_bridge.go:99-135 | For an unreadable first record: what is sent twice, and that delivery is exactly-once if and only if the write that completed the record ended with it. |
| `TunDelivery.DuplicatedTail` | internal/tun_bridge.go:99-135 | A concrete run that sends an octet twice. |
| `TunDelivery.ChunkingDoesNotMatter` | internal/tun_bridge.go:60-117 | Two ways of cutting the same octets into writes are meant to send the same octets and end with the same flags, unless the first record is unreadable; if connections fail, one run sends a beginning of what the other sends. |
| `TunDelivery.RefusedIff` | internal/tun_bridge.go:138-168 | Over a readable first record a run is refused if and only if there is a cause, and the cause decides the exact steps: alert 70 when the plan or the policy in force alerts, alert 49 when key_share is missing under TLS 1.3 only, none for a block; no failure keeps the connection open and nothing of the client is sent. |
| `TunDelivery.AlertNumbersSwapped` | internal/tunnel.go:18-21 | Every alert carries the number that section 6 of RFC 8446 assigns to the other cause, never its own. |
| `TunDelivery.TreatmentReassembles` | internal/tun_bridge.go:170-192 | Every mode delivers records that reassemble to the handshake octets. |
| `TunDelivery.HelloIsDelivered` | internal/tun_bridge.go:60-197 | Main theorem: however it is cut into writes, a forwarded ClientHello reassembles to its handshake octets and the rest of the stream follows once, in order; a failing connection carries a beginning of that. |
| `TunDelivery.CrashesExactlyWhen` | internal/tun_bridge.go:170-189 | A run panics if and only if the first record is a ClientHello to be forwarded whose policy asks for a cut it cannot make, and the connection holds until then. |
| `TunDelivery.BrokenIsHandled` | internal/tun_bridge.go:82-117 | On every run, a failed connection has been handled, and once handled nothing is held back and nothing can panic. |
| `TunDelivery.CrashingRun` | internal/tun_bridge.go:173-178 | A concrete crash: a ClientHello of 47 octets without a server name under a policy that cuts it into two records. |
| `TunDelivery.DisguiseIsDelivered` | internal/tun_bridge.go:60-197 | The ClientHello that simple-obfs prints, cut into writes in any way and followed by anything, is delivered under every plan that neither refuses it nor asks for an impossible cut. |
| `TunPolicy.DomainTakesPrecedence` | internal/tun_bridge.go:152-158 | When the record names a host for which there is a domain policy, each setting in force is the domain's if set there, otherwise the plan's, then normalised. |
| `TunPolicy.PlanInForce` | internal/tun_bridge.go:138-158 | Without a name, or without a policy for it, the plan is in force as it stands. |
| `TunPolicy.DomainRefuses` | internal/tun_bridge.go:152-168 | On every run a domain policy that blocks closes without a word, and one that alerts sends the alert with number 70 and closes, whatever admitting plan is below it. |
| `TunPolicy.BlockedIsClosed` | internal/tun_bridge.go:160-163 | A blocked name gives a bare close. |
| `TunPolicy.DomainForwards` | internal/tun_bridge.go:152-192 | A domain policy of another mode lets the record through under that mode. |
| `TunPolicy.HeldIff` | internal/tun_bridge.go:82-97 | Data is held exactly while there are fewer than five octets, or the first two are 0x16 and 0x03 and the announced record is not complete. |
| `TunPolicy.OtherProtocolsPass` | internal/tun_bridge.go:87-92 | What does not start with 0x16 and 0x03 passes untouched. |
| `TunPolicy.ClosedIff` | internal/tun_bridge.go:87-116 | A run is closed exactly when its first record was refused or a step failed before the record and what arrived with it were out. |
| `TunPolicy.ReplyIs` | internal/tun_bridge.go:60-80 | What the client is told by each write. |
| `TunPolicy.TreatedFirst` | internal/tun_bridge.go:99-115 | The treated record goes out ahead of everything else. |
| `TunPolicy.DirectIsUntouched` | internal/tun_bridge.go:170-172 | Direct and raw mode send the record as it is, in one write. |
| `TunPolicy.DecoyIsCutInName` | internal/desync_linux.go:189-211 | The decoy mode probes exactly if no TTL is configured, and parts the record at the last dot of the name or in its middle. |
| `TunPolicy.RecordsAreCutInName` | internal/tun_bridge.go:173-178 | Fragmenting under a policy gives at most as many records as it says, two of which meet inside the name. |
| `TunPolicy.SegmentsAreCutInName` | internal/tun_bridge.go:173-178 | Segmenting under a policy gives writes two of which meet inside the name. |
| `TunPolicy.UrgentOnlyIfAsked` | internal/tun_bridge.go:170-192 | No mode uses urgent data unless the policy asks for it. |
| `ShadowAead.Increment` | tun2socks/transport/shadowsocks/shadowaead/stream.go:199-207 | The carry loop in place computes the successor and touches nothing beyond the nonce. |
| `ShadowAead.NextAddsOne` | tun2socks/transport/shadowsocks/shadowaead/stream.go:199-207 | The successor adds one to the little-endian value modulo 256^k. |
| `ShadowAead.AfterAdds` | tun2socks/transport/shadowsocks/shadowaead/stream.go:199-207 | i successors add i modulo 256^k. |
| `ShadowAead.SealNonces` | tun2socks/transport/shadowsocks/shadowaead/stream.go:38-60 | The i-th seal of any run of frames uses the i-th nonce. |
| `ShadowAead.NoncesNeverRepeat` | tun2socks/transport/shadowsocks/shadowaead/stream.go:38-60 | No two seals in a run of up to 256^k seals share a nonce. |
| `ShadowAead.Chunks` | tun2socks/transport/shadowsocks/shadowaead/stream.go:39-52 | The chunks of a write make up its data, and all but the last have the full payload size; an empty write is one empty chunk. |
| `ShadowAead.FramesFitIff` | tun2socks/transport/shadowsocks/shadowaead/stream.go:13-17 | Every frame fits the buffer of 17 KiB if and only if the tag has at most 511 octets. |
| `ShadowAead.Writer.WriteFrame` | tun2socks/transport/shadowsocks/shadowaead/stream.go:53-59 | One write of one frame, which may fail; the nonce advances either way; with a tag of at most 511 octets no more than the buffer holds is written. |
| `ShadowAead.Writer.Write` | tun2socks/transport/shadowsocks/shadowaead/stream.go:31-62 | The frames of the chunks are written up to the first failure; nonce and reported count cover every chunk tried, the failing one included. |
| `ShadowReader.Reader.ReadOne` | tun2socks/transport/shadowsocks/shadowaead/stream.go:106-137 | Opening one frame: payload or error, nonce and input left over, for any input. |
| `ShadowReader.Reader.Read` | tun2socks/transport/shadowsocks/shadowaead/stream.go:140-161 | `Read` into a buffer of any size is one `ReadStep`; the buffer holds what the step returns. |
| `ShadowReader.ReadFills` | tun2socks/transport/shadowsocks/shadowaead/stream.go:140-161 | A read returns as much of the plaintext at hand as fits the buffer. |
| `ShadowReader.FrameOpens` | tun2socks/transport/shadowsocks/shadowaead/stream.go:106-137 | Opening the first frame of an encoding returns its chunk, or the zero-chunk error for an empty one, and stays in sync. |
| `ShadowReader.EveryRead` | tun2socks/transport/shadowsocks/shadowaead/stream.go:106-161 | After any sequence of reads some number of chunks has been opened in order, delivered or buffered; nonces agree at the frame boundary; empty chunks appear as zero-chunk errors, one each, and no other error but the end of the stream. |
| `ShadowReader.WrittenIsEncoded` | tun2socks/transport/shadowsocks/shadowaead/stream.go:31-62 | A run of writes puts the encoding of all their chunks on the wire. |
| `ShadowReader.RoundTrip` | tun2socks/transport/shadowsocks/shadowaead/stream.go:31-161 | Delivered, buffered and still encoded data make up the plaintext, for all writes (empty ones included) and all buffer sizes; at the end of the stream everything was delivered. |
| `ShadowReader.SaltedRoundTrip` | tun2socks/transport/shadowsocks/shadowaead/stream.go:219-276 | The same, all clauses, behind the salt that both sides derive their cipher from. |
| `ShadowReader.WritesArrive` | tun2socks/transport/shadowsocks/shadowaead/stream.go:31-62 | A run of writes leaves a beginning of the encoding on the wire whatever fails, and all of it if nothing does. |
| `ShadowReader.EveryReadFollows` | tun2socks/transport/shadowsocks/shadowaead/stream.go:106-161 | On a wire that breaks off anywhere, any sequence of reads delivers or buffers whole chunks in order and then nothing more. |
| `ShadowReader.BrokenRoundTrip` | tun2socks/transport/shadowsocks/shadowaead/stream.go:31-161 | Whatever fails below the writer, the reader gets a beginning of the plaintext, for all writes and all buffer sizes. |
| `ShadowReader.ReadFromInSyncIff` | tun2socks/transport/shadowsocks/shadowaead/stream.go:73-84 | A frame of `ReadFrom` leaves reader and writer at the same place if and only if its chunk is not empty. |
| `ShadowTamper.EveryReadIsOpened` | tun2socks/transport/shadowsocks/shadowaead/stream.go:106-161 | For any wire and any buffers, what was delivered or is buffered are payloads that opened, at consecutive positions of the wire and with consecutive nonces, each behind a length that announced its size; every seal that did not open, length or payload, added nothing and was reported. |
| `ShadowTamper.TamperedWire` | tun2socks/transport/shadowsocks/shadowaead/stream.go:106-161 | However a wire is altered, a reader that has seen no failure has delivered untampered chunks from the first on without a gap, if nothing opens but what was sealed and the wire holds no foreign seals. |
| `ShadowTamper.HoleAfterFailure` | tun2socks/transport/shadowsocks/shadowaead/stream.go:131-135 | Behind an altered payload the next read delivers the next chunk. |
| `ShadowTamper.CleanEndIff` | tun2socks/transport/shadowsocks/shadowaead/stream.go:111-130 | When the end of the wire is reported as a clean one and when as an unexpected one. |
| `SimpleObfs.MakeClientHelloMsg` | tun2socks/transport/simple-obfs/tls.go:121-197 | The successive writes build the octets of the disguised ClientHello, for any sizes. |
| `SimpleObfs.DisguiseMessageOk` | tun2socks/transport/simple-obfs/tls.go:121-197 | Those octets are the print of a well-formed abstract ClientHello, 217 octets longer than data and server name, whenever its record length fits 16 bits. |
| `SimpleObfs.DisguiseParses` | tun2socks/transport/simple-obfs/tls.go:121-197 | Printer against parser, whenever the record length fits 16 bits: `parseClientHello` succeeds with sniStart 151 + data length, the octets there are the server name, there is no key_share, and the data sit at octet 142. |
| `SimpleObfs.Chunks` | tun2socks/transport/simple-obfs/tls.go:78-92 | The chunks of a write make up its data; all but the last have 16384 octets and none is empty. |
| `SimpleObfs.TLSObfs.WriteChunk` | tun2socks/transport/simple-obfs/tls.go:94-109 | The first chunk becomes a ClientHello, later ones application-data frames; the first request is used up even if its write fails. |
| `SimpleObfs.TLSObfs.Write` | tun2socks/transport/simple-obfs/tls.go:78-92 | The dressed chunks are written up to the first failure, in which case only the failing chunk's size is reported; `firstRequest` survives only an empty write. |
| `SimpleObfs.DressedIsFramed` | tun2socks/transport/simple-obfs/tls.go:102-107 | After the first request the writes make up plain frames. |
| `SimpleObfs.FirstRequestIsHello` | tun2socks/transport/simple-obfs/tls.go:94-100 | The first write of a session is one ClientHello in which the parser finds the server name, with the first chunk in its session ticket; the other chunks follow as frames. |
| `SimpleObfs.TLSObfs.Read` | tun2socks/transport/simple-obfs/tls.go:27-76 | `Read` is one `ReadStep`, errors and short reads included. |
| `SimpleObfs.ReadInside` | tun2socks/transport/simple-obfs/tls.go:55-64 | On any input, what a read inside a frame returns and leaves, and exactly when it fails. |
| `SimpleObfs.ReadAtFrame` | tun2socks/transport/simple-obfs/tls.go:41-51 | The same of a read at a frame whose length is there. |
| `SimpleObfs.SilentIff` | tun2socks/transport/simple-obfs/tls.go:27-39 | A read returns nothing and no error exactly for an empty frame, and when the connection has ended inside a frame's length. |
| `SimpleObfs.EntersFrame` | tun2socks/transport/simple-obfs/tls.go:27-52 | What the reader returns from a new frame and what it leaves make up the frame; `remain` is the size of the latter. |
| `SimpleObfs.StaysInFrame` | tun2socks/transport/simple-obfs/tls.go:55-64 | The same inside a frame. |
| `SimpleObfs.EveryRead` | tun2socks/transport/simple-obfs/tls.go:27-76 | Along every run of reads, with any buffers and short reads, returned octets, the current frame and the frames behind it make up the data. |
| `SimpleObfs.WriteThenRead` | tun2socks/transport/simple-obfs/tls.go:27-109 | Round trip of any run of writes after the first through any reads; once the input is used up everything was returned. |
| `IPPools.SortSorts` | internal/ippool.go:276-281 | The order by loss, then latency, of exactly the given results. |
| `IPPools.SortIsStable` | internal/ippool.go:276-281 | Ties keep their order of arrival. |
| `IPPools.KeptAreBest` | internal/ippool.go:276-289 | No result left out precedes one that is kept. |
| `IPPools.WeightIsLargest` | internal/ippool.go:291-298 | In the measured quantities: the weight is the largest number in 1..10000 whose product with the latency stretched by the loss, plus ten nanoseconds, stays within ten seconds, or 1. |
| `IPPools.BetterWeighsMore` | internal/ippool.go:291-298 | An address that is no slower and loses no more never weighs less. |
| `IPPools.Pick` | internal/ippool.go:349-355 | The target falls in the slice of the total that belongs to the picked entry. |
| `IPPools.PickIs` | internal/ippool.go:349-355 | That entry is the only one. |
| `IPPools.FairRun` | internal/ippool.go:335-357 | As many consecutive calls of `Get` as the total weight, without a wrap, hand out entry i exactly as often as its weight. |
| `IPPools.FairRound` | internal/ippool.go:335-357 | Over such a run every address comes back as often as the entries with that address weigh. |
| `IPPools.UnfairAtWrap` | internal/ippool.go:347-348 | If the total does not divide the counter's range, a run across the wrap is unfair to the last entry. |
| `IPPools.FairForeverIff` | internal/ippool.go:347-348 | Every run is fair, wrapping ones included, if and only if the total divides 2^32 or there is one entry. |
| `IPPools.ReachableOk` | internal/ippool.go:227-232 | Filtering keeps exactly the results with a loss below one, and their indexes valid and distinct. |
| `IPPools.IPPool.constructor` | internal/ippool.go:126-128 | An empty pool satisfies the invariant. |
| `IPPools.IPPool.StoreTop` | internal/ippool.go:286-302 | The first results are stored with their weights, in the measured quantities, and the weights summed. |
| `IPPools.IPPool.ClearFrom` | internal/ippool.go:304-306 | The remaining weights become zero and the others stay. |
| `IPPools.IPPool.UpdateBest` | internal/ippool.go:271-319 | The invariant holds afterwards; the entries are the first results in order, each with the weight its latency and loss give; an empty list changes nothing. |
| `IPPools.IPPool.Scan` | internal/ippool.go:204-235 | The same with results that arrive in any order and unreachable addresses dropped. |
| `IPPools.IPPool.Select` | internal/ippool.go:349-356 | The accumulating loop finds the picked entry; the fallback after it is unreachable. |
| `IPPools.IPPool.Get` | internal/ippool.go:335-357 | The address picked by the old counter, which advances by one and wraps at 2^32; empty text and no advance for an empty pool. |
| `IPPools.IPPool.GetMany` | internal/ippool.go:335-357 | Consecutive calls of `Get` hand out the addresses of the run of targets that starts at the counter. |
| `IPPools.IPPool.Round` | internal/ippool.go:335-357 | As many calls of `Get` as the total weight, before the counter wraps, return every address as often as it weighs. |
| `TtlRules.ParseTTLRules` | internal/desync_rules.go:14-73 | Same error or kind as `ParseText`; rules come out as a descending arrangement of exactly the written ones. |
| `TtlRules.SortRules` | internal/desync_rules.go:69-71 | Descending, and the same rules. |
| `TtlRules.ReadItem` | internal/desync_rules.go:23-67 | One rule and where it leaves off, or what is wrong with it. |
| `TtlRules.ScansPrinted` | internal/desync_rules.go:22-68 | Every written list of rules scans to its meaning. |
| `TtlRules.ScannedIsPrinted` | internal/desync_rules.go:22-68 | A text that scans to rules is a written list of rules. |
| `TtlRules.AcceptsExactly` | internal/desync_rules.go:14-73 | Accepted are exactly digits-only texts and `;`-separated rules with an optional trailing `;`. |
| `TtlRules.ReadsBack` | internal/desync_rules.go:22-68 | Round trip: a printed list of rules is read back in order. |
| `TtlRules.CalcByRules` | internal/desync.go:40-51 | Of a rule with the greatest threshold not above the measured TTL, the value subtracted or the value itself, by its operator; failure if and only if there is none. |
| `TtlRules.CalcConstant` | internal/desync.go:28-38 | The value of the digits, whatever was measured. |
| `TtlRules.FakeTtl` | internal/desync.go:22-54 | Loading a text and calling what it installed, from text to TTL. |
| `TtlRules.PrintedRulesDecide` | internal/desync.go:22-54 | From a printed list of rules with distinct thresholds to the TTL: the value, by operator, of the rule with the greatest threshold not above the measured one. |
| `TtlSearch.Attempt` | internal/desync_linux.go:47-59 | The first attempt that does not time out decides a round. |
| `TtlSearch.ProbeIs` | internal/desync_linux.go:47-59 | A round reaches, or fails, exactly if some attempt connects, or errs, and all before it time out; it misses exactly if all time out. |
| `TtlSearch.DetectMinimalReachableTTL` | internal/desync_linux.go:30-71 | A returned TTL was reached and the one below was not; none is returned only if the largest was not reached; on a monotone network it is the minimum; at most floor(log2(maxTTL)) + 1 rounds. |
| `TransformIp.RewriteLoop` | internal/utils.go:254-265 | The masking loop computes the octets of `Rewrite`. |
| `TransformIp.RewriteIsSplice` | internal/utils.go:254-283 | Octet-wise masking equals (net div 2^h) * 2^h + (ip mod 2^h), for addresses of any width. |
| `TransformIp.TransformIP` | internal/utils.go:230-288 | The same of the whole operation with its masked prefix; an error exactly on a version mismatch. |
| `TransformIp.LandsInPrefix` | internal/utils.go:245-285 | The result lies in the prefix and keeps the host bits. |
| `TransformIp.FixedIff` | internal/utils.go:245-285 | An address is left alone if and only if it lies in the prefix; moving twice is moving once. |
| `ExpandPattern.JoinSplit` | internal/utils.go:208-224 | Joining with bars undoes splitting, for every text. |
| `ExpandPattern.SplitJoin` | internal/utils.go:208-224 | Splitting undoes joining, for parts without bars. |
| `ExpandPattern.SplitByPipeLoop` | internal/utils.go:208-224 | The loop computes the split. |
| `ExpandPattern.FindClose` | internal/utils.go:172-184 | The depth-counting loop finds what `Close` finds. |
| `ExpandPattern.ClosesIff` | internal/utils.go:172-184 | That is the one closing parenthesis with balanced text in front of it, or none if there is no such parenthesis. |
| `ExpandPattern.ExpandPattern` | internal/utils.go:159-206 | The recursion terminates on every text and computes `Expand`. |
| `ExpandPattern.ExpandsToAllChoices` | internal/utils.go:159-206 | Groups with balanced alternatives, then text in which no group closes, expand to exactly the ordered cartesian product, as many texts as the product of the group sizes. |
| `ExpandPattern.EveryTextIsAPattern` | internal/utils.go:159-206 | Every text is of that form. |
| `ExpandPattern.NoGroupIff` | internal/utils.go:160-188 | No group is found exactly if nothing closes the first opening parenthesis. |
| `Socks5.SplitsOffIff` | tun2socks/transport/socks5/socks5.go:292-337 | A serialised address is split off whole from any continuation if and only if the format can represent it. |
| `Socks5.ParsesBack` | tun2socks/transport/socks5/socks5.go:319-337 | The destination can be read off the serialised address (section 5 of RFC 1928). |
| `Socks5.SerializeAddr` | tun2socks/transport/socks5/socks5.go:321-337 | The type octet of section 5 of RFC 1928: 3 for names, 1 for IPv4, 4 otherwise. |
| `Socks5.SerializesBack` | tun2socks/transport/socks5/socks5.go:319-337 | What can be parsed is the serialisation of what it parses to. |
| `Socks5.SplitsExactly` | tun2socks/transport/socks5/socks5.go:292-317 | Split off are exactly the serialised addresses, and addresses with an empty name. |
| `Socks5.DecodesIff` | tun2socks/transport/socks5/socks5.go:370-409 | A datagram decodes exactly if it is unfragmented, its reserved octets are zero and an address follows. |
| `Socks5.Stream.ReadFull` | tun2socks/transport/socks5/socks5.go:267-285 | A full read into a slice of the buffer. |
| `Socks5.ReadAddr` | tun2socks/transport/socks5/socks5.go:261-289 | Succeeds if and only if the stream starts with an address, and consumes exactly the slice `SplitAddr` returns. |
| `Socks5.DecodesEncoded` | tun2socks/transport/socks5/socks5.go:370-417 | Round trip of a datagram, for every representable destination and every payload (section 7 of RFC 1928). |
| `Socks5.EncodesDecoded` | tun2socks/transport/socks5/socks5.go:370-417 | A datagram that decodes is the encoding of what it decodes to. |

## Left out

- Sockets, sleeping and the timing of waiting for an acknowledgement: a wait is one fallible step of the trace.
- The kernel tricks behind the decoy mode (`internal/desync_linux.go:74-157`): one abstract step that carries the data.
- How a receiver treats TCP urgent octets: outside the code; the trace tags the literal zero octets as fillers.
- Wire.Conn.Do: a connection that failed once does not recover, so a later write cannot succeed after a failed one.
- TunBridge.TunPolicyConn.SendDecoy: fetching the raw connection, its descriptor and its TTL is one fallible step, not three.
- Ciphers, key derivation and random salts: an abstract pair of functions of which `ShadowAead.Lawful` states all that is used, and `ShadowTamper.Authentic` what one theorem adds.
- `Writer.ReadFrom` as a loop and `Reader.WriteTo`: only the frame that `ReadFrom` writes is modelled.
- ShadowAead.Writer.WriteFrame: does not model the panic of slicing past the pooled buffer, which needs a tag of more than 511 octets.
- Pooled buffers, sealing in place and aliasing between a buffer and its pool: values are modelled, not reuse.
- SimpleObfs.TLSObfs.Read: returns the octets it would copy into the caller's buffer instead of filling an array.
- ClientHello.ParsesPrinted: says of the ECH flag only that an extension of type 0x00fe is listed, as the code does.
- Concurrency of the pool: scans and calls of `Get` are taken one after the other; the counter's atomicity is what makes that faithful.
- IPPools.WeightIsLargest: real arithmetic, without floating-point rounding.
- TtlRules.ParseTTLRules: digit values are unbounded, without 64-bit overflow.
- TransformIp.TransformIP: starts from parsed addresses; address syntax and zones are library code.
- ExpandPattern.ExpandPattern: characters stand for the octets of the pattern; text that is not valid UTF-8 is not distinguished.
- The cache and the call merging around the TTL search, and the domain and address tries: library code.
- `genPolicy`, `handleTLS`, configuration decoding, DNS, statistics, SOCKS4, REST interface, Android service and user interface: glue, or easier members.
