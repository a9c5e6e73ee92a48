# mcpix: the hard core, modelled and proved in Dafny

mcpix lets a receiver issue payment charges offline. A seed `S`, shared with the receiving
bank, and a counter `T` give a public code C1, which travels in a 35-character transport
field, and a confirmation code C2, which the receiver keeps until the payer's bank presents
it. Everything hangs on two promises: no `T` is used twice, and a C2 is accepted once. This
project models the parts of the repository that keep those promises and proves that they do,
or exactly when they do not.

The layers, bottom up:

- **Flash store.** `Flash` has NOR semantics (erase sets, write clears, one byte at a time)
  and a power supply that gives out after any number of byte steps. `Records` is the byte
  format, `Crc32` the checksum (CRC-32/ISO-HDLC, section 8 of RFC 1952) over bit vectors,
  `TornWrites` the exact reading of every cut save, `Corruption` what damage is detected.
  `PingPong` is the two-slot discipline on values; `Stores` fills buffers and changes the
  flash in place and is tied to it; `CrashRuns` is about whole runs of both stores.
- **Boot protocol.** `BootProtocol` is the protocol on what the stores hold, with the effect
  of cut saves as a parameter; `Boot` is the program on the flash, and its refinement;
  `BootCharge` is what a boot shows and keeps, as the bank meets it.
- **Receiver, payer, codes.** `Encoder`, `Derivation`, `TransportField`, `Protocol`, `Payer`,
  `Receiver`, `ReceiverRuns` (calls one after the other), `ReceiverVerdicts` (what their history
  decides) and `Interleaving` (calls at once).
- **Backups.** `BackupFormat`, `Backup`, `CounterRestore`.
- **Lifetime.** The reference count of the Kotlin binding: `Lifetime` is what never happens,
  `LifetimeProgress` what does.

`Bytes`, `Buffers`, `Types`, `Quotients`, `LinearRegister` and `CrcEvaluation` are shared
helpers.

## What turned out false, and the exact condition

- *A cut save leaves the old record or the new one* (storage.rs:24-33). False: a torn body
  whose checksum happens to be 0xFFFFFFFF meets an erased checksum field and is accepted.
  `Counterexamples.ConsumedByACut` gives a receipt. `CrashRuns.CutSaveAtomicIff` and
  `CrashRuns.CutCounterAtomicIff` say exactly which cuts are atomic, whatever is saved over
  whatever; `FreshSaveAtomicIff`, `CutMarkAtomicIff` and `NextCounterAtomicIff` say it in
  terms of the torn body alone for the saves of a boot whose counter does not wrap.
  `CrashRuns.CrashAtomicity` holds of all runs without such a cut.
- *A save is what the next load returns.* True exactly while fewer than 2^32 - 1 saves have
  counted (`PingPong.CompleteSaveIsLoaded`); after that the sequence number wraps to 0 and all
  saves are lost (`PingPong.WrappedSavesAreLost`).
- *T is never reused* (main.rs:86-87). False in two ways, neither of which the program notices
  before it derives. A torn counter is never smaller than the one being saved, so a cut cannot
  lower T, but it can raise T to 2^64 - 1, from which the release build wraps to 0:
  `Counterexamples.CounterReused`. And once the counter store has used up its sequence numbers,
  its saves are lost, so that every boot derives the same T again, with no cut at all:
  `Counterexamples.NumbersRunOut`. A boot advances exactly when it starts below 2^64 - 1, and
  makes what it emits durable exactly when a sequence number is left
  (`BootProtocol.BootAdvances`). Over whole runs, `Boot.NoReuseIff` gives the exact condition.
- *An uncut boot ends with the charge consumed.* True exactly while both stores have a sequence
  number left; the receipt store takes two saves a boot and runs out first. With its last
  number the boot still reports status 6, over a receipt that loads as unconsumed
  (`Boot.UncutBoot`).

## How the source is read

- Arithmetic that overflows wraps (`save_seq + 1`, `last_t + 1`), as in the release profile of
  embedded/Cargo.toml; a debug build panics instead. Everything else that the source computes
  with checked or saturating operations is modelled with its error or its saturation.
- A power cut is a supply of `power` byte steps. An operation that outlasts it ends in
  `PowerLost` (an error the source does not have: the machine is simply off), and a boot then
  ends `Dark`. Only flash steps use up the supply, so a boot that has made T durable also
  derives it, and a cut between two flash operations is one at the start of the second.
- `main` creates its RAM flash afresh; as its comments say, it stands for the flash of a real
  device, which survives. `Boot` therefore takes the flash that the previous boot left.
- The two record kinds share their 27-byte head and the checks on it, so `Stores.WriteHead` and
  `Records.ReadHead` are written once.
- Invalid UTF-8 in an identifier and an identifier of the wrong charset give the same answer in
  the source, and are one case here.
- HMAC-SHA-256 is an arbitrary function into 32 bytes; key derivation, authenticated encryption
  and Base58Check are arbitrary functions, of which `Backup.Inverts` states all that is used, but for
  `Backup.ExportOfImport`, which asks that what opens is what was sealed (`Backup.Authentic`).
  The clock, the random source and the QR encoder's verdict are parameters.
- `Interleaving` splits `generate_charge` at its three calls, because each of them takes its
  own lock; `Lifetime` splits at every atomic operation.
- Constant-time comparison is equality.

## Model

| member | source | states |
|---|---|---|
| CrashRuns.CrashAtomicity | crates/mcpix-embed/src/storage.rs:24-33 | From a blank flash, after any interleaving of receipt saves, consumption marks and counter saves, each cut after any number of byte steps, each load returns the last completed value or that of a later cut save: never a mixture, an older value or a spurious Empty. Hypotheses: every save finds a sequence number left, and no cut leaves a body whose checksum is 0xFFFFFFFF |
| CrashRuns.FewEventsHaveRoom | crates/mcpix-embed/src/storage.rs:309-314 | The first hypothesis holds of every run of fewer than 2^32 events |
| CrashRuns.CutSaveAtomicIff | crates/mcpix-embed/src/storage.rs:249-260 | A cut save of any receipt over anything, at every distance from the sequence limit, is atomic if and only if no number is left, or the body it leaves is rejected, or the accepted torn body spells the old or the new receipt |
| CrashRuns.FreshSaveAtomicIff | crates/mcpix-embed/src/storage.rs:249-260 | For a fresh receipt over none, over an unconsumed one or over one with a smaller counter, atomic if and only if no torn body with the erased checksum is left while a number is left |
| CrashRuns.CutMarkAtomicIff | crates/mcpix-embed/src/storage.rs:282-290 | A cut mark of a receipt with an alphanumeric code is atomic if and only if no accepted torn body lost more than its flag byte; a cut before the flag byte alone is always harmless |
| CrashRuns.CutCounterAtomicIff | crates/mcpix-embed/src/storage.rs:350-361 | A cut save of any counter over anything is atomic if and only if no number is left, or the body is rejected, or the accepted torn body spells the old or the new counter |
| CrashRuns.NextCounterAtomicIff | crates/mcpix-embed/src/storage.rs:350-361 | The save of a larger counter is atomic if and only if no accepted torn body lost a byte of the counter other than 0xFF |
| CrashRuns.RunHolds | crates/mcpix-embed/src/storage.rs:249-260 | Refinement: over any interleaving of cut and complete events, of any length, the two stores on one flash are two independent cells, each moved by its own events alone |
| CrashRuns.StepSlots | crates/mcpix-embed/src/storage.rs:350-361 | On any flash image, one event takes its own store one two-slot step and leaves what the other store reads unchanged |
| CrashRuns.ReachableSlots | crates/mcpix-embed/src/storage.rs:303-327 | In every flash that runs of any length reach, whatever the checksums: the slot invariant holds, and losing the slot that the next save overwrites would change no load |
| CrashRuns.ConsumedStays | crates/mcpix-embed/src/storage.rs:282-290 | Once a load shows a receipt consumed, no further marks or counter saves, cut or complete, change what loads return |
| CrashRuns.CutMark | crates/mcpix-embed/src/storage.rs:282-290 | A mark cut anywhere leaves the receipt unchanged or one that reads as consumed, with the same identifier; a complete one consumes it while a number is left |
| CrashRuns.LoadAfterSave | crates/mcpix-embed/src/storage.rs:264-278 | What the next load returns after a cut save: the value that landed, or what was loaded before |
| CrashRuns.FateShape | crates/mcpix-embed/src/storage.rs:103-129 | A cut save lands the new receipt, or nothing, or, exactly when a torn body has the erased checksum, that torn receipt, which reads as consumed, keeps its identifier and has no smaller counter |
| CrashRuns.CounterFateShape | crates/mcpix-embed/src/storage.rs:175-192 | A cut save lands the new counter, or nothing, or, exactly when a torn body has the erased checksum, that torn counter, which is no smaller |
| CrashRuns.ErasedIsBlank | crates/mcpix-embed/src/storage.rs:430-435 | A fresh flash reads as two empty stores |
| PingPong.StepConsistent | crates/mcpix-embed/src/storage.rs:303-327 | Below the limit, one save, whatever becomes of it, keeps the slot invariant, is numbered by the saves that landed, and changes what load returns exactly when it lands |
| PingPong.ReachedStep | crates/mcpix-embed/src/storage.rs:303-327 | The same at every distance from the limit: a save changes what load returns exactly when it lands while a number is left |
| PingPong.ConsistentSequences | crates/mcpix-embed/src/storage.rs:309-314 | Two valid slots carry sequence numbers that differ by exactly one, the larger counting the saves that landed |
| PingPong.TargetIsSpare | crates/mcpix-embed/src/storage.rs:315-325 | The slot a save overwrites is never the slot that load returns |
| PingPong.TieLosesTheLoadedRecord | crates/mcpix-embed/src/storage.rs:267-277 | On equal sequence numbers the comparisons of load and save pick the same slot, so a cut save would lose the loaded record; such states never satisfy the invariant |
| PingPong.WrappedSavesAreLost | crates/mcpix-embed/src/storage.rs:309-314 | At sequence 2^32 - 1 the increment wraps: this save and every later one is not what load returns |
| PingPong.CompleteSaveIsLoaded | crates/mcpix-embed/src/storage.rs:249-278 | In every reachable state a complete save is what the next load returns if and only if fewer than 2^32 - 1 saves have counted |
| PingPong.RunRefines | crates/mcpix-embed/src/storage.rs:249-278 | Over any run of saves cut anywhere, of any length, the two slots refine a single cell |
| PingPong.CellRunAtomic | crates/mcpix-embed/src/storage.rs:24-33 | Where every save finds a number and none is read back as a value never saved, the cell holds the last completed value or that of a later cut save |
| TornWrites.TornReceiptReads | crates/mcpix-embed/src/storage.rs:131-169 | For every k, what the first k bytes of a receipt over erased bytes read as: None below 11 + identifier length; up to 54 the torn receipt exactly when its body checksum is 0xFFFFFFFF; from 55 to 58 the receipt exactly when the missing checksum bytes are 0xFF; from 59 on the receipt |
| TornWrites.TornCounterReads | crates/mcpix-embed/src/storage.rs:194-216 | The same classification of counter records, with body end 35 |
| TornWrites.RetainedCut | crates/mcpix-embed/src/storage.rs:249-260 | The exact outcome of a receipt save cut after any number of its 128 byte steps, over any earlier slot contents |
| TornWrites.CounterCut | crates/mcpix-embed/src/storage.rs:350-361 | The same for counter saves |
| TornWrites.TornReceiptBounds | crates/mcpix-embed/src/storage.rs:122-125 | A torn receipt never reads as unconsumed, and its numbers are never below those saved |
| TornWrites.TornCounterBounds | crates/mcpix-embed/src/storage.rs:189 | A torn counter is never below the one being saved |
| TornWrites.TornCounterSame | crates/mcpix-embed/src/storage.rs:189 | A torn counter is the one being saved if and only if the bytes it lost were 0xFF |
| TornWrites.TornMark | crates/mcpix-embed/src/storage.rs:125 | A torn consumption mark is the mark itself if and only if only its flag byte is missing |
| Crc32.BurstDetected | crates/mcpix-embed/src/storage.rs:64-65 | Two messages that differ, and only within four consecutive bytes, have different checksums |
| Counterexamples.CheckValue | crates/mcpix-embed/src/storage.rs:64-65 | The modelled checksum gives the published check value of CRC-32/ISO-HDLC |
| Corruption.ReceiptBurst | crates/mcpix-embed/src/storage.rs:131-169 | Any damage within four consecutive body bytes of a stored receipt makes the reader return None |
| Corruption.CounterBurst | crates/mcpix-embed/src/storage.rs:194-216 | Any damage within four consecutive body bytes of a stored counter makes the reader return None |
| Corruption.ReceiptChecksumField | crates/mcpix-embed/src/storage.rs:139-143 | With the body intact, a receipt reads back exactly when its checksum field is intact |
| Corruption.CounterChecksumField | crates/mcpix-embed/src/storage.rs:202-206 | The same for counters |
| Corruption.KindsAreDistinct | crates/mcpix-embed/src/storage.rs:131-197 | Each reader rejects the other kind of record |
| Records.RetainedRoundTrip | crates/mcpix-embed/src/storage.rs:103-169 | Reading inverts writing, whatever stands in the padding after byte 58 |
| Records.CounterRoundTrip | crates/mcpix-embed/src/storage.rs:175-216 | Reading inverts writing, whatever stands in the padding after byte 38 |
| Stores.WriteRetainedRecord | crates/mcpix-embed/src/storage.rs:103-129 | Filling the buffer in place produces exactly the receipt image that the round trip and the burst results are about |
| Stores.WriteCounterRecord | crates/mcpix-embed/src/storage.rs:175-192 | Filling the buffer in place produces exactly the counter image |
| Stores.SaveReceiptIsStep | crates/mcpix-embed/src/storage.rs:249-260 | Cut or not, saving a receipt is one step of the two-slot discipline on what the slots read as |
| Stores.SaveCounterIsStep | crates/mcpix-embed/src/storage.rs:350-361 | The same for counters |
| Stores.EraseAndWrite | crates/mcpix-embed/src/storage.rs:253-258 | Erase then write on a limited supply leaves the cut slot and nothing else changed, and reports success exactly when the supply lasted |
| Stores.ReceiptStore.Load | crates/mcpix-embed/src/storage.rs:264-278 | Returns the newest valid record, Empty, or a backend error |
| Stores.ReceiptStore.ChooseSaveTarget | crates/mcpix-embed/src/storage.rs:303-327 | Returns the slot and the sequence number that the two-slot discipline prescribes |
| Stores.ReceiptStore.Save | crates/mcpix-embed/src/storage.rs:249-260 | The whole new flash for every supply, the supply left, and the returned sequence number or error |
| Stores.ReceiptStore.MarkConsumed | crates/mcpix-embed/src/storage.rs:282-290 | Idempotent on a consumed receipt, Empty on a blank store, otherwise a save of the same receipt consumed |
| Stores.CounterStore.Load | crates/mcpix-embed/src/storage.rs:363-377 | Returns the newest valid counter, Empty, or a backend error |
| Stores.CounterStore.ChooseSaveTarget | crates/mcpix-embed/src/storage.rs:390-414 | Returns the slot and the sequence number that the two-slot discipline prescribes |
| Stores.CounterStore.Save | crates/mcpix-embed/src/storage.rs:350-361 | The whole new flash for every supply, the supply left, and the returned sequence number or error |
| Flash.SaveStepsIsCutSlot | crates/mcpix-embed/src/storage.rs:479-504 | Erase-then-write with and-semantics, stopped after any number of byte steps, is confined to its slot and leaves a prefix of the image over erased bytes |
| Flash.RamFlash.Erase | crates/mcpix-embed/src/storage.rs:479-489 | Bytes become 0xFF in ascending order until done or out of power; a bad range changes nothing |
| Flash.RamFlash.Write | crates/mcpix-embed/src/storage.rs:491-504 | Bytes are cleared by and, ascending, until done or out of power; a bad range changes nothing |
| Flash.RamFlash.Read | crates/mcpix-embed/src/storage.rs:459-467 | The bytes of the range, or an error when it leaves the flash |
| Boot.NoReuseIff | embedded/src/main.rs:77-104 | From a blank flash, over runs of boots of any length cut anywhere: every counter that reaches derivation exceeds every counter durable or derived before if and only if no boot emits once one has started from 2^64 - 1, and none emits after one that emitted with no sequence number left; nothing is asked of the checksum |
| Boot.NoReuseUntorn | embedded/src/main.rs:77-104 | Where no counter save is cut to a torn body with the erased checksum: the derived counters strictly increase if and only if the run is safe in that sense, up to 2^32 boots always are, and the counter never exceeds the number of boots |
| Boot.UncutBoot | embedded/src/main.rs:77-198 | A boot with enough power reaches status 6 if and only if both stores have a sequence number left (or the receipt store, having none, already holds this very receipt); its consumption is durable if and only if the receipt store has two |
| Boot.BootRefines | embedded/src/main.rs:77-198 | A boot of the program on the flash bytes is a boot of the protocol on what the stores read |
| Boot.RunRefines | embedded/src/main.rs:77-198 | The same for whole runs, including every counter emitted |
| Boot.PowerOn | embedded/src/main.rs:62-201 | The program, step by step in place: resulting flash, emitted counter and ending for every flash and supply |
| BootCharge.RetainedCharge | embedded/src/main.rs:103-198 | An uncut boot with a number left in both stores halts with status 6, and the flash loads a receipt of R1 for the next counter and 9900 cents whose expected code is what any bank holding the seed answers to the field handed to the QR encoder; it is consumed if and only if two numbers were left |
| BootCharge.RefusedField | embedded/src/main.rs:113-121 | A field that the QR encoder refuses halts the boot with 0xFF: the counter is spent and durable, and the receipts are as they were |
| BootCharge.FirstBootBytes | embedded/src/main.rs:77-198 | The whole flash after the first uncut boot of a new device, byte for byte: receipt 1 in slot A, its consumed copy in slot B, counter 1, and one erased slot |
| BootProtocol.NeverReusedIff | embedded/src/main.rs:77-104 | The same from every reachable memory and whatever cut saves do to their slots: no repetition if and only if the run is safe |
| BootProtocol.IncreasingIff | embedded/src/main.rs:77-104 | As long as no boot starts from 2^64 - 1, the emitted counters strictly increase if and only if at most the last emitting boot finds no sequence number |
| BootProtocol.StalledRun | embedded/src/main.rs:77-104 | With no sequence number left, every boot that emits repeats the same T, for ever |
| BootProtocol.BootAdvances | embedded/src/main.rs:77-104 | At every distance from the sequence limit: what a boot emits exceeds the previous counter if and only if that one was below 2^64 - 1, and is durable if and only if a sequence number was left |
| BootProtocol.UntornRun | embedded/src/main.rs:77-104 | Where no torn counter is accepted, the counter equals the number of saves that counted, so no boot of a run of any length starts from 2^64 - 1 |
| BootProtocol.FewUntornBootsAreSafe | embedded/src/main.rs:77-104 | Then every run of up to 2^32 boots of a new device is safe |
| BootProtocol.CompleteBoot | embedded/src/main.rs:124-198 | What an uncut boot reports and leaves in both stores, at every distance of either from its sequence limit |
| BootProtocol.UncutBoots | embedded/src/main.rs:77-104 | n uncut boots emit n consecutive counters while sequence numbers last |
| Counterexamples.CounterReused | embedded/src/main.rs:84-87 | A concrete run in which T is reused: one cut at a fatal sequence number leaves 2^64 - 1, and the next boots emit 0 and 1 again |
| Counterexamples.NumbersRunOut | crates/mcpix-embed/src/storage.rs:309-314 | Another, without any cut: after 2^32 - 1 complete boots from a blank flash every further boot that emits, cut or not, emits 2^32 |
| Counterexamples.ReusedWithoutACut | embedded/src/main.rs:84-104 | Two such boots, and the same T has been derived twice |
| Counterexamples.ConsumedByACut | crates/mcpix-embed/src/storage.rs:24-33 | A concrete cut save that breaks cold-cut atomicity: an unconsumed receipt loads as consumed |
| Encoder.EncodeSlots | crates/mcpix-core/src/crypto.rs:24-42 | The accumulator loop yields, for each i, the alphabet entry of bits 5i to 5i + 4 of the big-endian stream, and reads exactly ceil(5n / 8) bytes |
| Encoder.EncodeHost | crates/mcpix-core/src/crypto.rs:24-42 | The host form: n characters, then the fill of its 16-byte buffer |
| Encoder.EncodeEmbedded | crates/mcpix-embed/src/crypto.rs:23-40 | The embedded form gives the same n characters |
| Encoder.Refill | crates/mcpix-core/src/crypto.rs:29-35 | Refilling leaves 5 to 12 waiting bits, the accumulator equal to them and below 2^bits, so below 4096: the 32-bit shift loses nothing |
| Encoder.NextChar | crates/mcpix-core/src/crypto.rs:28-40 | One turn of the loop yields character i and keeps the remaining bits |
| Encoder.AccumulatorFits | crates/mcpix-core/src/crypto.rs:24-42 | At most twelve waiting bits stay below 2^bits and below 4096 |
| Encoder.SameEncodingIff | crates/mcpix-core/src/crypto.rs:24-42 | Two digests give the same n characters if and only if their first 5n bits agree |
| Encoder.EncodedIsAlphanumeric | crates/mcpix-core/src/crypto.rs:15-19 | Every character is alphanumeric |
| Derivation.SameC1Iff | crates/mcpix-core/src/crypto.rs:70-83 | Two counters of one seed share C1 if and only if their digests share the first 55 bits |
| Derivation.SameC2Iff | crates/mcpix-core/src/crypto.rs:86-92 | Two codes C2 of one seed agree if and only if the digests of label, counter and C1 share the first 55 bits |
| Derivation.MessagesApart | crates/mcpix-core/src/crypto.rs:70-92 | No two purposes, counters or public codes of one seed ever hand the digest the same message |
| Derivation.DerivedIsAlphanumeric | crates/mcpix-core/src/crypto.rs:70-92 | Derived codes satisfy the charset of the transport field and of C2 |
| TransportField.ParseOfField | crates/mcpix-core/src/transport_field.rs:49-115 | Parsing inverts printing for every identifier and alphanumeric C1 |
| TransportField.FieldOfParse | crates/mcpix-core/src/transport_field.rs:75-115 | Printing inverts parsing on every accepted string: padding is canonical |
| TransportField.ParsersAgree | crates/mcpix-embed/src/transport_field.rs:48-78 | Host and embedded parsers accept exactly the same strings, with the same result |
| TransportField.FieldInjective | crates/mcpix-core/src/transport_field.rs:49-63 | Distinct pairs never share a field |
| TransportField.FieldBytes | crates/mcpix-core/src/transport_field.rs:49-63 | The layout, position by position: the scheme, the identifier, its padding, and C1 |
| TransportField.ParseRefuses | crates/mcpix-core/src/transport_field.rs:75-93 | Why the host refuses a string: its length, then the position of its first byte that is not alphanumeric, then its scheme, then its version |
| TransportField.ParseRefusesIdentifier | crates/mcpix-core/src/transport_field.rs:95-115 | Then, for version 1, its length, an empty identifier, or one with a padding character inside |
| TransportField.RefusalsAgree | crates/mcpix-embed/src/transport_field.rs:48-78 | The embedded parser's error is the host's or a coarser one: length, layout exactly for charset, scheme or version, and the same identifier error |
| TransportField.Encode | crates/mcpix-core/src/transport_field.rs:49-63 | The host printer, with its padding loop, prints the canonical field |
| TransportField.EncodeInto | crates/mcpix-embed/src/transport_field.rs:18-40 | The embedded printer fills the buffer with the same field |
| TransportField.ParseInto | crates/mcpix-embed/src/transport_field.rs:48-78 | The trimming loop computes the embedded parser, errors included |
| TransportField.FirstBad | crates/mcpix-core/src/transport_field.rs:83-87 | The reported position is the first byte that is not alphanumeric |
| TransportField.TrimEnd | crates/mcpix-core/src/transport_field.rs:101-102 | The longest prefix without trailing padding |
| Types.NewSeedId | crates/mcpix-core/src/types.rs:72-87 | Accepts exactly the short alphanumeric strings without the padding character |
| Types.ParseC2 | crates/mcpix-core/src/types.rs:117-127 | Accepts exactly eleven alphanumeric bytes |
| Payer.Substitution | crates/mcpix-bank-payer-mock/src/lib.rs:93-112 | For every seed, counter, identifier and amounts, a bank with the same seed accepts the emitted field and returns the amount paid and an identifier that parses as C2 and is Valid against the retained receipt |
| Payer.UnknownReceiver | crates/mcpix-bank-payer-mock/src/lib.rs:93-112 | Without the seed the answer is UnknownSeed |
| Payer.PaidIff | crates/mcpix-bank-payer-mock/src/lib.rs:93-112 | A bank pays exactly the printed fields of an alphanumeric C1 under an identifier it knows, and answers the C2 of its seed, the counter and that C1 |
| Payer.ForeignInstrument | crates/mcpix-bank-payer-mock/src/lib.rs:94-96 | Whatever is not 35 characters starting with PIXOFFv1 is refused as foreign, whatever else is wrong with it |
| Payer.WindowIsPayments | crates/mcpix-bank-payer-mock/src/lib.rs:117-144 | A windowed payment fails exactly as the plain ones do, and otherwise its candidates are exactly the counters within the tolerance, each with the plain payment's identifier |
| Payer.ProcessPaymentWindowed | crates/mcpix-bank-payer-mock/src/lib.rs:117-144 | The loop over saturated bounds yields exactly the quanta of the tolerance clipped to 64 bits, ascending, and the size computation does not overflow |
| Payer.DriftCovered | crates/mcpix-bank-payer-mock/src/lib.rs:117-144 | With clocks at most k windows apart, the receiver's quantum is among the candidates |
| ReceiverRuns.SingleUse | crates/mcpix-receiver-sdk/src/lib.rs:100-116 | Over any run of non-overlapping calls a charge is Valid at most once; a later well-formed attempt is a Replay |
| ReceiverRuns.ConsumedStays | crates/mcpix-receiver-sdk/src/memory_store.rs:42-71 | A consumed receipt never becomes unconsumed |
| ReceiverRuns.IssuedKeyIsFresh | crates/mcpix-receiver-sdk/src/lib.rs:86-95 | Every new receipt goes under a key that no receipt has |
| ReceiverRuns.EndToEnd | crates/mcpix-receiver-sdk/src/lib.rs:76-116 | For a granted charge, charge and retained receipt carry the identifier, counter and amount asked for, the receipt unconsumed; the bank's answer is the retained code, and is Valid once, and then Replay |
| ReceiverRuns.MistypedCode | crates/mcpix-core/src/state.rs:64-73 | A well-formed code other than the retained one, on an unconsumed receipt, is a Mismatch and changes nothing |
| ReceiverRuns.DriftTolerance | crates/mcpix-receiver-sdk/src/lib.rs:100-116 | With clocks at most k windows apart, trying the candidates in order reaches Valid, and consumes the issued receipt if and only if no earlier candidate opens another one |
| ReceiverRuns.DriftEndToEnd | crates/mcpix-receiver-sdk/src/lib.rs:76-116 | The same from the charge that the receiver generates to the candidates that the bank answers, each on its own clock |
| ReceiverRuns.HitIff | crates/mcpix-receiver-sdk/src/lib.rs:100-116 | A candidate that opens its receipt is the one that succeeds if and only if no earlier candidate opens a receipt |
| ReceiverRuns.EarlierHitIff | crates/mcpix-core/src/state.rs:64-79 | A candidate opens the receipt of its counter if and only if two keyed digests share their first 55 bits |
| ReceiverRuns.FirstThatOpens | crates/mcpix-receiver-sdk/src/lib.rs:100-116 | Misses change nothing; the first candidate that opens a receipt consumes exactly that one |
| ReceiverRuns.IssuedIncreasing | crates/mcpix-receiver-sdk/src/timestamp_counter.rs:73-92 | Counters issued to one identifier strictly increase, in both modes and however the clock moves |
| ReceiverRuns.RateLimit | crates/mcpix-receiver-sdk/src/timestamp_counter.rs:67-92 | While clock readings lie in [t0, t1], at most t1/w - t0/w + 1 charges are issued to one identifier |
| ReceiverVerdicts.QuantizedVerdict | crates/mcpix-receiver-sdk/src/timestamp_counter.rs:73-92 | Over every run from a new receiver: a quantised charge is granted if and only if the identifier was registered and the clock's quantum exceeds every counter issued to it; it is then the charge of that quantum and of the seed registered last; otherwise it is a collision exactly when the quantum is the last one issued, a rollback exactly when it is smaller, and nothing changes |
| ReceiverVerdicts.SequentialVerdict | crates/mcpix-receiver-sdk/src/monotonic_counter.rs:37-43 | Over every run: the next sequential charge carries one more than the number of charges issued to the identifier and the seed registered last; it is refused only for an unregistered identifier or after 2^64 - 1 charges |
| ReceiverVerdicts.SeedIsLast | crates/mcpix-receiver-sdk/src/lib.rs:66-72 | After any run an identifier has exactly the seed that was registered last for it, or none if none was |
| ReceiverVerdicts.RemembersLast | crates/mcpix-receiver-sdk/src/timestamp_counter.rs:77-92 | After any run the counter remembers exactly the last counter issued |
| ReceiverVerdicts.ReceiptsAreHistory | crates/mcpix-receiver-sdk/src/memory_store.rs:42-71 | After any run a receipt exists if and only if its charge was issued, and is consumed if and only if some call of the run found its code Valid |
| ReceiverVerdicts.ReceiptOfIssue | crates/mcpix-receiver-sdk/src/lib.rs:86-96 | What the issuing call retained, from the seed in force then, stands until the end of every run, but for its flag |
| ReceiverVerdicts.VerdictKind | crates/mcpix-receiver-sdk/src/lib.rs:100-116 | For any bytes after any run: refused for length or charset; otherwise NoRetainedReceipt if and only if the counter was never issued, and Replay if and only if some earlier call of the run was Valid for that charge; nothing changes but by a Valid |
| ReceiverVerdicts.VerdictOfIssued | crates/mcpix-core/src/state.rs:64-79 | For an issued charge, until some code was Valid: Valid if and only if the code is what a bank with the seed in force at issue answers to the charge, otherwise Mismatch, whatever was registered, issued or mistyped since |
| Receiver.ReceiverSdk.RegisterSeed | crates/mcpix-receiver-sdk/src/lib.rs:66-72 | The new state after registration |
| Receiver.ReceiverSdk.GenerateCharge | crates/mcpix-receiver-sdk/src/lib.rs:76-96 | In place, for both counters: result and whole new state are the function that QuantizedVerdict, SequentialVerdict and EndToEnd characterise |
| Receiver.ReceiverSdk.ValidateCode | crates/mcpix-receiver-sdk/src/lib.rs:100-116 | In place: verdict or error and whole new state are the function that VerdictKind and VerdictOfIssued characterise |
| Receiver.TimestampQuantizedCounter.Next | crates/mcpix-receiver-sdk/src/timestamp_counter.rs:73-92 | In place: the answer that QuantizedVerdict characterises over whole runs, and the new map |
| Receiver.InMemoryCounter.Next | crates/mcpix-receiver-sdk/src/monotonic_counter.rs:37-43 | The next counter or an overflow error, and the new map |
| Receiver.InMemoryCounter.RestoreLastIssued | crates/mcpix-receiver-sdk/src/monotonic_counter.rs:27-33 | The slot becomes the larger of what it was and what was restored |
| Receiver.InMemorySeedStore.MarkConsumed | crates/mcpix-receiver-sdk/src/memory_store.rs:61-71 | Consumes exactly the named receipt, or reports that there is none |
| Receiver.InMemorySeedStore.SaveReceipt | crates/mcpix-receiver-sdk/src/memory_store.rs:42-46 | The receipt goes under its own key, and nothing else changes |
| Interleaving.ConcurrentCharges | crates/mcpix-receiver-sdk/src/lib.rs:76-96 | Under every interleaving of concurrent calls, registrations, marks and clock movements: taken counters strictly increase per identifier, no receipt key is written twice, and each returned charge has its own receipt with the C2 of the seed its call read |
| Interleaving.TakeIsFresh | crates/mcpix-receiver-sdk/src/timestamp_counter.rs:73-92 | The atomic counter step never hands out a counter twice |
| Interleaving.AloneIsSequential | crates/mcpix-receiver-sdk/src/lib.rs:76-96 | The three steps of an idle thread, taken without interference, are the sequential call: same state, and a charge returned exactly when that call grants it |
| Backup.ImportOfExport | crates/mcpix-backup/src/lib.rs:130-233 | Import after export is the identity, given only that decryption and text decoding invert their encoders and the tag adds 16 bytes |
| Backup.ExportOfImport | crates/mcpix-backup/src/lib.rs:187-233 | With an authentic cipher every accepted text is an export of the imported state, but for three reserved header bytes and the identifier's padding; the seal covers the header as it stands |
| Backup.RefusedUnopened | crates/mcpix-backup/src/lib.rs:189-207 | What does not decode to 122 bytes starting with MBKP is Malformed, and any version or key derivation but 1 is UnsupportedVersion, before any key is derived |
| Backup.WrongPassphrase | crates/mcpix-backup/src/lib.rs:209-224 | Importing an export with any passphrase is KdfFailed if and only if no key comes out, and DecryptFailed if and only if the key does not open the seal over the header |
| Backup.Import | crates/mcpix-backup/src/lib.rs:187-233 | The host importer: value or error kind for every text |
| Backup.ImportEmbedded | crates/mcpix-embed/src/restore.rs:93-150 | The embedded importer gives the host's answer on every text and passphrase |
| Backup.Export | crates/mcpix-backup/src/lib.rs:130-183 | The sealed text of the written header and payload, or KdfFailed |
| BackupFormat.ParseHeader | crates/mcpix-embed/src/restore.rs:164-189 | Same value or same error kind as the host's reader on every 47-byte header |
| BackupFormat.ParsePayload | crates/mcpix-embed/src/restore.rs:207-236 | Same value or same error kind as the host's reader on every 59-byte payload |
| BackupFormat.HeaderRoundTrip | crates/mcpix-backup/src/format.rs:69-113 | Reading inverts writing |
| BackupFormat.PayloadRoundTrip | crates/mcpix-backup/src/format.rs:115-173 | Reading inverts writing |
| BackupFormat.HeaderOfRead | crates/mcpix-backup/src/format.rs:86-113 | An accepted header is the written one but for its three reserved bytes |
| BackupFormat.PayloadOfRead | crates/mcpix-backup/src/format.rs:139-173 | An accepted payload is the written one but for the padding behind its identifier |
| BackupFormat.HeaderVerdict | crates/mcpix-backup/src/format.rs:86-97 | A header is refused for its magic first, then for any version or key derivation but 1, and for nothing else |
| BackupFormat.PayloadVerdict | crates/mcpix-backup/src/format.rs:139-173 | A payload is refused for its version, then its identifier, then its mode, and otherwise read from the bytes named |
| BackupFormat.WriteHeader | crates/mcpix-backup/src/format.rs:69-84 | The buffer, filled in place, holds the header bytes that the readers invert |
| BackupFormat.WritePayload | crates/mcpix-backup/src/format.rs:115-131 | The buffer, filled in place with its padding loop, holds the payload bytes |
| CounterRestore.RestoredContinuesAbove | crates/mcpix-uniffi/src/lib.rs:148-170 | What the old device issued up to the export, followed by all that the restored one ever issues, strictly increases |
| CounterRestore.RestoredChargeIsPayable | crates/mcpix-uniffi/src/lib.rs:148-170 | From export to restore to charge: the restored receiver grants the very charge the exporter would have issued next, a bank with the exporter's seed answers it, and the restored receiver finds the answer Valid |
| CounterRestore.RestoredGoesOn | crates/mcpix-uniffi/src/lib.rs:155-170 | A backup restores if and only if it is sequential; the restored receiver then grants T + 1 on the backed-up seed (or reports the overflow), knows no other identifier, and has no receipt of the past |
| CounterRestore.RestoreThenIssue | crates/mcpix-receiver-sdk/src/monotonic_counter.rs:27-43 | A restore takes the larger counter, the next issue is exactly the one after it, and no other identifier is touched |
| CounterRestore.RestoresNeverGoBack | crates/mcpix-receiver-sdk/src/monotonic_counter.rs:27-43 | Any order and repetition of restores and issues keeps issued counters strictly increasing |
| CounterRestore.ExhaustedStays | crates/mcpix-receiver-sdk/src/monotonic_counter.rs:37-43 | At 2^64 - 1 every further issue is refused, for ever; nothing wraps |
| CounterRestore.ForkReuses | crates/mcpix-backup/src/lib.rs:48-52 | The documented limit: an old device that goes on issuing and the restored one issue the same next charge |
| CounterRestore.FromSealedBackup | crates/mcpix-uniffi/src/lib.rs:148-170 | In place: the receiver that RestoredGoesOn and RestoredChargeIsPayable are about; or the importer's error; or a refusal of quantised backups |
| Lifetime.Accounting | bindings/kotlin/src/main/kotlin/uniffi/mcpix_uniffi/mcpix_uniffi.kt:1266-1306 | Over any interleaving of any number of activations: the counter equals calls in flight plus one for an undropped initial reference, never overflows, and a decrement has reached zero once, exactly when destroyed, dropped and idle |
| Lifetime.CleanedOnceAndSafely | bindings/kotlin/src/main/kotlin/uniffi/mcpix_uniffi/mcpix_uniffi.kt:1269-1306 | Clean is called at most once, never before destroy and never while a call is in flight |
| Lifetime.NoEntryAfterZero | bindings/kotlin/src/main/kotlin/uniffi/mcpix_uniffi/mcpix_uniffi.kt:1285-1296 | Once the counter is zero no call ever enters and no second clean is triggered |
| Lifetime.OneDestroyer | bindings/kotlin/src/main/kotlin/uniffi/mcpix_uniffi/mcpix_uniffi.kt:1269-1278 | The flag lets a single activation drop the initial reference |
| LifetimeProgress.CallEnters | bindings/kotlin/src/main/kotlin/uniffi/mcpix_uniffi/mcpix_uniffi.kt:1287-1299 | A call on a live object enters in three steps of its own, and the counter is one higher |
| LifetimeProgress.CallRefused | bindings/kotlin/src/main/kotlin/uniffi/mcpix_uniffi/mcpix_uniffi.kt:1289-1295 | A call on counter 0, or on the largest counter, is turned away and changes nothing |
| LifetimeProgress.CallReturns | bindings/kotlin/src/main/kotlin/uniffi/mcpix_uniffi/mcpix_uniffi.kt:1287-1306 | A call that enters and leaves again leaves the object as it was |
| LifetimeProgress.RetryMeansProgress | bindings/kotlin/src/main/kotlin/uniffi/mcpix_uniffi/mcpix_uniffi.kt:1287-1299 | Lock freedom: whatever others do between read and compare-and-set, the call enters if and only if the counter still is what was read, and goes round again only if another activation has advanced |
| LifetimeProgress.DestroyCleans | bindings/kotlin/src/main/kotlin/uniffi/mcpix_uniffi/mcpix_uniffi.kt:1269-1278 | Destroying an object that no call uses cleans it |
| LifetimeProgress.LastCallCleans | bindings/kotlin/src/main/kotlin/uniffi/mcpix_uniffi/mcpix_uniffi.kt:1301-1306 | Destroying it while a call is in flight leaves the cleaning to that call |
| LifetimeProgress.QuietIff | bindings/kotlin/src/main/kotlin/uniffi/mcpix_uniffi/mcpix_uniffi.kt:1269-1306 | Over any interleaving: once all activations have returned, the object is cleaned, exactly once, if and only if it was destroyed |
| LifetimeProgress.AloneFinishes | bindings/kotlin/src/main/kotlin/uniffi/mcpix_uniffi/mcpix_uniffi.kt:1269-1306 | Wherever an activation stands, six steps of its own bring it to its end and move no other |
| LifetimeProgress.DestroyedGetsCleaned | bindings/kotlin/src/main/kotlin/uniffi/mcpix_uniffi/mcpix_uniffi.kt:1269-1306 | No reachable state is stuck: a destroyed object can always still be cleaned, once |

## Left out

- HTTP, mTLS, OCSP and the wire JSON of the receiving bank: the bank is a map from identifiers to seeds.
- Collision resistance or secrecy of any external primitive: nothing is claimed.
- Constant-time behaviour and zeroisation.
- Bit rot of the newest slot or of both: outside the power-cut model, where the store falls back to an older record.
- Overlapping `validate_receipt` calls on one key: read, check and mark are separate store calls, so single use is stated for calls that do not overlap.
- The SQLite store, the sealed store and the HTTP receiver: the map semantics over external engines.
- Version negotiation and capability lists: one version exists.
- Manifest signature and self-check, `xtask`, build scripts and CI.
- The C ABI, Swift, WASM and .NET bindings, and the rest of the Kotlin file; cleanup by the garbage collector.
- `embedded-uno-q/src/main.rs`: the same flow as `embedded/src/main.rs`.
- Store errors that the in-memory store never returns, and failures of the random source in `register`.
- `Lifetime.Accounting`: modelled on values, as a state machine over atomic steps, because any number of activations interleave between them; nested and parallel calls are separate activations.
- `Interleaving.ConcurrentCharges`: modelled on values for the same reason; the sequential classes are in `Receiver`.
- `Receiver.ReceiverSdk.GenerateCharge`: the methods of the stores and counters run without interference here; the locks themselves are not modelled.
- `Boot.PowerOn`: moving the flash into a store and freeing it again is a shared reference here, and the QR image itself is not modelled.
- `CrashRuns.CrashAtomicity`: stated for saves that find a sequence number left; `PingPong.WrappedSavesAreLost` says what becomes of the others.
