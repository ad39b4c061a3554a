# A Dafny model of nullroute's descriptor pipeline, address index and session

nullroute is an air-gapped Bitcoin signing device. This project models, in Dafny
4.11, the parts of it whose mistakes cost money, and proves what they are for:

- **The descriptor pipeline** (`packages/core/src/descriptor`,
  `packages/core/src/derive/path.ts`): the parser of BIP-380 descriptors with
  nested taproot trees, their 40-bit checksum, the canonical text of a key, the
  builder of a multisig descriptor, child-key derivation and addresses.
- **What the daemon concludes from it** (`packages/daemon/src/psbt.ts`,
  `packages/daemon/src/session.ts` and the handlers over it): the index of owned
  addresses and the signing path it records, the progress of a transaction's
  signatures, the session that holds the seed, and the lists sealed with a wallet.
- **Two stand-alone loops**: the entropy combiner's encoding
  (`packages/core/src/entropy/combine.ts`) and the BIP-329 label importer
  (`packages/core/src/labels/bip329.ts`).

## How it is laid out

One module a file, in the order they build on each other.

| file | module | what it holds |
|---|---|---|
| text.dfy | Text | trim, split, join, decimal numbers, as the JavaScript library does them |
| bits.dfy | Bits | xor and shifts on natural numbers, bit by bit |
| checksum.dfy, charset.dfy, burst.dfy, field.dfy | Checksum, Charset, Burst, Field | the descriptor checksum, its loop and its algebra; its alphabet; the errors it detects; the field it divides over |
| path.dfy | Path | derivation paths |
| keys.dfy, keygrammar.dfy | Keys, KeyGrammar | key expressions: origin, extended key, suffix; the language they are read from |
| spelling.dfy, canonical.dfy, suffix.dfy | Spelling, Canonical, Suffix | what the two markers mean, the canonical text of a key, when two texts are written alike |
| arguments.dfy | Arguments | the depth-counting splitter |
| script.dfy, grammar.dfy | Script, Grammar | the recursive-descent parser, a printer for its trees and the language it reads |
| keytext.dfy, roundtrip.dfy | KeyPrinting, RoundTrip | printed keys and trees read back |
| placement.dfy, descriptor.dfy | Placement, Descriptors | where scripts and keys may stand; whole descriptors |
| order.dfy, lists.dfy | Order, Lists | byte order, sorting, mapping with refusals |
| derive.dfy, multipath.dfy | Derive, Multipath | a key expression at an index; what a multipath element means |
| multisig.dfy, taproot.dfy | Quorums, Taproot | quorums and their addresses |
| assemble.dfy, respelling.dfy, agreement.dfy | Assemble, Respelling, Agreement | building a quorum; two spellings of one member; every device producing the same bytes |
| psbt.dfy, signing.dfy, progress.dfy | OwnedAddresses, SigningPaths, SigningProgress | the owned index; the signing path it records for a quorum; signature progress |
| session.dfy, remembered.dfy, vault.dfy | Sessions, Remembered, Vault | the session as a state machine and a class; what its history says it holds; what reaches the disk |
| entropy.dfy, labels.dfy | Entropy, Labels | the two loops |
| laws.dfy | Laws | libraries that meet every assumed law, so that no theorem about them is about nothing |

Code that works by changing things step by step is a method with its loop, its
array or its class, proved equal to a function of its inputs or of the old
state; what the source promises is then proved about that function. Code made of
expressions and recursion is functions and lemmas. Exceptions are values of
`Result`.

## What is assumed

Libraries the source calls are records of functions passed as parameters, with
the laws the proofs need stated in one predicate each:

- `Keys.Library`, `Keys.Lawful`: base58 is decoded and encoded without loss and
  writes letters and digits only, the double-hash prefix is four bytes, an
  82-byte key with a known version is written with its known prefix, and an
  address is a nonempty run of letters and digits. Which payloads BIP-32 accepts
  is left open.
- `Derive.Curve`, `Derive.CurveLawful`: child derivation sees the 74-byte payload
  only, and has no hardened child.
- `OwnedAddresses.Device`, `OwnedAddresses.WalletLawful`: the private and the public
  derivation of an unhardened child give one key (BIP-32), and a public key
  fills 74 bytes.
- `Quorums.Encoder`: the script and address writers, which may refuse; nothing is
  assumed of them but that they are functions.
- `Labels.Json`, `Labels.JsonLawful`: a written record reads back, on one line.
- HKDF, the master fingerprint and the forgeable-character class are arbitrary
  functions.

`Laws.WalletLawsMeet` and `Laws.JsonLawMeets` give libraries that meet these laws
together, the first with every payload of a compressed key accepted, the device's
own account key among them.

## What turned out false, and exactly when

- *One spelling class, one descriptor* (`assemble.ts:40-54`, `assemble.ts:209-246`).
  The rewriting of `h` looks for a slash, `>`, `;` or the end after it, and a
  suffix may hold white space before its wildcard, so `/0h /*` and `/0' /*` are
  the same key to the parser and are written differently. `Agreement.SameBytesExactly`
  gives the condition, both ways; `Suffix.SpaceBeforeWildcard` the input. Such a key
  derives nothing, since the step is hardened.
- *A printed multipath key reads back* and *a multipath key means its
  expansion* (`parse.ts:425`). The element is spliced into the text, so
  `/5<0;1>` reads as `/50`. `KeyPrinting.KeyRoundTrip`, `Descriptors.DescriptorRoundTripExact`
  and `Multipath.MultipathExpandsExactly` give the condition, both ways.
- *The recorded signing path is the script's path* (`psbt.ts:241-257`). Only the last
  step of a suffix is kept and the index is always appended.
  `SigningPaths.RecordedSteps` says exactly for which keys the path is right;
  `SigningPaths.RecordedElsewhere` shows a key with two steps and one without a
  wildcard for which it is not.
- *Deleting unsaved changes leaves the same disk* (`session.ts:94-114`). A saved
  forget of a quorum that an unsaved forget already removed is refused, so the
  file keeps it (`Vault.StrandedForget`); and the first save of a wallet writes the
  live lists, so it seals what was called for this session only
  (`wallets.ts:96-108`, `Vault.CreateSealsPending`). `Vault.UnsavedLeavesNoTrace` says
  of every run that these two are the only exceptions, both ways.
- *An ephemeral seed never passes assertPersistable* (`session.ts:254-287`). `load` sets the
  flags before it reads the new seed; when that seed is already disposed the call
  throws with the flags of a wallet that was never opened
  (`Sessions.RefusedLoadClearsFlag`). `Sessions.PersistableExactly` says for every run when
  the check passes, and that the seed in memory has been disposed wherever that
  is not how its wallet was opened.

Of the refusals of `multisigShape`, the ones for a threshold out of range, for an
uncompressed key under `wsh` and for more than fifteen keys in bare `sh` cannot
happen to a descriptor the parser accepted (`Quorums.AcceptedShape`). They are
modelled as the code has them.

## Model

| member | source | states |
|---|---|---|
| Checksum.Polymod | packages/core/src/descriptor/checksum.ts:55-65 | The loop over the five generators computes the BCH step of the specification function: shift by five bits, add the symbol, add the generators the dropped bits select. |
| Checksum.ComputeChecksum | packages/core/src/descriptor/checksum.ts:72-113 | The grouped loop (three low symbols, then their combined high symbol, eight zeros, xor 1, eight characters) equals one fold of that step over the expanded symbol sequence, and refuses exactly the first character outside the input set. |
| Checksum.SelectedLinear | packages/core/src/descriptor/checksum.ts:45-65 | Which generators are added depends linearly, over GF(2), on the dropped bits. |
| Checksum.ShiftLinear | packages/core/src/descriptor/checksum.ts:55-65 | The state part of a step is linear over GF(2). |
| Checksum.FeedLinear | packages/core/src/descriptor/checksum.ts:55-65 | Feeding two symbol streams from two states and xoring the results is feeding the xored stream from the xored state. |
| Checksum.FeedConcat | packages/core/src/descriptor/checksum.ts:72-104 | Feeding is a fold: a stream may be cut anywhere. |
| Burst.FeedFits | packages/core/src/descriptor/checksum.ts:55-65 | From a state below 2^40, every state reached by feeding five-bit symbols is below 2^40. |
| Burst.FinalStateFits | packages/core/src/descriptor/checksum.ts:72-113 | The state that is rendered is below 2^40 for every text of permitted characters. |
| Burst.ShiftForgetsNothing | packages/core/src/descriptor/checksum.ts:45-65 | A step maps no nonzero state to zero: the low five bits of the generators are independent. |
| Burst.WindowSurvives | packages/core/src/descriptor/checksum.ts:55-104 | A difference confined to at most eight symbols is not reduced away while they are fed. |
| Burst.SymbolsInjective | packages/core/src/descriptor/checksum.ts:72-104 | Texts of one length with the same symbol stream are the same text, including the incomplete last group. |
| Charset.PositionIs | packages/core/src/descriptor/checksum.ts:30-34 | Every character is found at the place its kind gives it (digits, a to h, I to Z, i to z, A to H, and the marks one by one), and nowhere exactly when it is not printable ASCII. |
| Charset.CaseKeepsLow | packages/core/src/descriptor/checksum.ts:27-34 | A letter in the other case has the same low symbol and another high one. |
| Burst.GroupMeans | packages/core/src/descriptor/checksum.ts:72-104 | Three characters are three symbols, their places modulo 32, and a fourth of the base-three digits of the groups of 32 they stand in. |
| Burst.RenderInjective | packages/core/src/descriptor/checksum.ts:103-113 | Two 40-bit states with the same eight characters are the same state. |
| Burst.BurstDetected | packages/core/src/descriptor/checksum.ts:72-113 | Bodies of one length that differ only inside two adjacent groups of three characters never share a checksum. |
| Burst.RewriteDetected | packages/core/src/descriptor/checksum.ts:72-113 | So no substitution, swap of neighbours or rewrite of up to four characters in a row keeps the checksum. |
| Burst.TranscriptionErrorRefused | packages/core/src/descriptor/checksum.ts:143-168 | A body with such an error under the right body's checksum is never reported valid. |
| Burst.ValidMeansOurs | packages/core/src/descriptor/checksum.ts:116-168 | verifyChecksum answers valid exactly for the texts withChecksum returns unchanged, and refuses exactly where it refuses. |
| Burst.WithChecksumVerifies | packages/core/src/descriptor/checksum.ts:116-168 | What withChecksum writes verifies, keeps its body, and is left alone by a second call. |
| Field.GeneratorsArePowers | packages/core/src/descriptor/checksum.ts:45-53 | The five constants are one polynomial of degree eight over GF(32), less its leading term, times 1, x, x^2, x^3 and x^4, x a root of the field's polynomial. |
| Field.StepDivides | packages/core/src/descriptor/checksum.ts:55-65 | A step is one step of long division by that polynomial over GF(32), and so not merely a linear map of bits. |
| Field.StepFieldLinear | packages/core/src/descriptor/checksum.ts:55-65 | Multiplying the state and the symbol by x multiplies the next state by x. |
| Field.RemainderOne | packages/core/src/descriptor/checksum.ts:72-113 | Eight characters are a text's checksum if and only if feeding the text's symbols and then theirs leaves the remainder 1. |
| Field.EmptyChecksum | packages/core/src/descriptor/checksum.ts:72-113 | The checksum of the empty text is 7h0w2xvg. |
| Path.ParsePathLoop | packages/core/src/derive/path.ts:47-100 | The loop over the components, pushing indices and canonical texts, computes the path function with its five refusals. |
| Path.PathRoundTrip | packages/core/src/derive/path.ts:47-118 | formatPath then parsePath returns the same 32-bit indices and the same text, for every list of them. |
| Path.CanonicalDecides | packages/core/src/derive/path.ts:93-110 | Two accepted paths have one canonical text exactly when they are the same indices, and the canonical text parses as the path did. |
| Path.PathMeans | packages/core/src/derive/path.ts:47-100 | A path is read as an index list if and only if it is an m or M and, behind every slash, a number below 2^31 with ', h, H or nothing after it, which is that index. |
| Arguments.SplitArgumentsLoop | packages/core/src/descriptor/parse.ts:156-183 | The loop with its depth counters and its growing part computes the splitting function. |
| Arguments.SplitIsExact | packages/core/src/descriptor/parse.ts:156-183 | splitArguments returns a list exactly when its parts join back to the input with commas and no part but at those commas is cut: every depth-zero comma cuts and no other does. |
| Arguments.SplitCounts | packages/core/src/descriptor/parse.ts:156-183 | The same, by counting: the parts are the one list that joins to the input in which every part but the last ends where the three kinds of bracket opened and closed are equally many, and holds no such comma inside. |
| Arguments.WholeSplits | packages/core/src/descriptor/parse.ts:156-183 | Parts with balanced brackets and no bare comma survive joining and splitting. |
| Arguments.PartsShort | packages/core/src/descriptor/parse.ts:156-183 | No part is longer than the input: the measure the parser's recursion ends by. |
| Keys.ReadDerivation | packages/core/src/descriptor/parse.ts:355-441 | The step-by-step reading of a suffix (wildcard off, element out, path read) computes the suffix function with all its refusals. |
| KeyGrammar.SuffixMeans | packages/core/src/descriptor/parse.ts:355-441 | A suffix is read as a derivation if and only if it is written as one: no H, steps, at most one element <a;b;...> of two or more distinct alternatives and that at the end, then a wildcard or none, never a hardened one. |
| KeyGrammar.KeyMeans | packages/core/src/descriptor/parse.ts:205-542 | A text is read as a key if and only if it is written as one: an origin of eight hexadecimal digits and steps or none, then a key of one of the ten prefixes whose 82 bytes have one of the ten versions, their checksum and a compressed key, with its suffix, or else 32, 33 or 65 bytes of hexadecimal and nothing after. |
| Canonical.BracketRoundTrip | packages/core/src/descriptor/parse.ts:205-240 | A written origin reads back as the same fingerprint and path. |
| Canonical.StandardPrefixOk | packages/core/src/descriptor/parse.ts:1016-1030 | Rewriting a key under its standard prefix keeps its 74 bytes, gives a valid key, and is idempotent. |
| Canonical.PrefixMeans | packages/core/src/descriptor/parse.ts:1000-1030 | By the literal version bytes: each of the five mainnet versions is rewritten as 0488b21e and each of the five test ones as 043587cf. |
| Canonical.CanonicalKeepsMeaning | packages/core/src/descriptor/parse.ts:1059-1100 | For every key expression the parser accepts: the re-parse guard never throws, the text written parses to the same key under its standard prefix, and canonicalising twice is canonicalising once. |
| Canonical.CanonicalWritten | packages/core/src/descriptor/parse.ts:1059-1100 | What the canonical text looks like: the fingerprint in small letters and the canonical steps in brackets, the key under its standard prefix or the lower-case hex, and a suffix in which no h marks a step that ends at a slash, >, ; or the end. |
| Spelling.TicksDerivation | packages/core/src/descriptor/parse.ts:355-441 | A suffix means the same under h and under ': same path, wildcard and alternatives, or the same refusal. |
| Spelling.TicksBracket | packages/core/src/descriptor/parse.ts:205-240 | An origin means the same under either marker and any case of its fingerprint. |
| Suffix.AcceptedShaped | packages/core/src/descriptor/parse.ts:355-441 | Every accepted suffix is made of digits, markers, spaces and / < > ; *, each marker after a digit and at the end of its step. |
| Suffix.RewrittenAlike | packages/core/src/descriptor/parse.ts:1086 | Two spellings of one accepted suffix are rewritten to one text if and only if they agree on each marker that white space follows. |
| Suffix.SpaceBeforeWildcard | packages/core/src/descriptor/parse.ts:1086 | The condition can fail: /0h /* and /0' /* are accepted as one suffix and rewritten as two texts. |
| KeyPrinting.ParsedKeyOk | packages/core/src/descriptor/parse.ts:444-542 | Every key the parser returns has a valid origin and either lower-case hex of a legal length or a valid extended key with a stored canonical path. |
| KeyPrinting.KeyRoundTrip | packages/core/src/descriptor/parse.ts:355-542 | A printed key parses to the same key if and only if, when it has a multipath element, it stores a zero as its last step, as a whole element leaves it. |
| Multipath.MultipathMeansItsExpansion | packages/core/src/descriptor/derive-key.ts:32-96 | BIP-389: on every accepted key whose element is a whole step, deriving it at an index and side gives what the key written out with the first or second alternative gives: the same public key, or none for both. |
| Multipath.TwoBranches | packages/core/src/descriptor/derive-key.ts:32-96 | /<a;b>/* read and derived: a and then the index on the receive side, b and then the index on the change side. |
| Multipath.MultipathExpandsExactly | packages/core/src/descriptor/parse.ts:404-431 | Where the multipath key derives, its steps are those of the written-out key if and only if only zeros stand between the last slash and the element. |
| Multipath.SplicedElement | packages/core/src/descriptor/parse.ts:425 | The failing family has a member: /5<0;1> stores the path m/50, its branches are 0 and 1, and written out it is /50 and /51. |
| RoundTrip.NodeReads | packages/core/src/descriptor/parse.ts:558-653 | The printed form of every script tree, at any nesting of taproot branches, parses to the same tree with its keys settled. |
| RoundTrip.TreeReads | packages/core/src/descriptor/parse.ts:934-956 | The printed form of every {A,B} tree parses to a tree of the same shape with the same leaves. |
| RoundTrip.ParsedNodeOk | packages/core/src/descriptor/parse.ts:558-653 | Every tree the parser returns is made of parts it could print: thresholds in range, valid keys, hex for raw scripts. |
| Grammar.ScriptMeans | packages/core/src/descriptor/parse.ts:558-653 | A text is read as a script if and only if it is a call of one of the thirteen words, written out literally, with arguments that mean one, and then it is the script of that word: the threshold before the keys and between one and their number, one key, one script, a key and perhaps a tree, an address, or hexadecimal. |
| Grammar.TreeMeans | packages/core/src/descriptor/parse.ts:934-956 | A text is read as a script tree if and only if it is a script, or two trees in braces, left and right of the one comma outside all brackets. |
| Placement.RangedMeansSomeKey | packages/core/src/descriptor/parse.ts:656-683 | A script is ranged exactly when one of the keys descriptorKeys lists is. |
| Placement.PlacementIsTheTable | packages/core/src/descriptor/parse.ts:777-923 | The recursive check accepts a script exactly when every node, at every depth, meets the table of BIP-381 to BIP-387: its place, the encodings of its keys and its size. |
| Placement.AllowedMeans | packages/core/src/descriptor/parse.ts:777-803 | The table place by place: what may stand in a leaf, in wsh, in sh and at the top. |
| Placement.PushedMeans | packages/core/src/descriptor/parse.ts:805-812 | The keys of a redeem script take 34 bytes each and 32 more for each uncompressed one. |
| Placement.TreeLeavesSupported | packages/core/src/descriptor/parse.ts:835-923 | Every leaf of an accepted tree is a pk, a multi_a or a sortedmulti_a. |
| Placement.BareShHoldsFifteen | packages/core/src/descriptor/parse.ts:857-879 | The 520-byte bound on a bare P2SH redeem script already keeps it at fifteen keys. |
| Descriptors.AcceptedDescriptor | packages/core/src/descriptor/parse.ts:704-756 | Every descriptor the parser returns is a placed, printable tree with one multipath length. |
| Descriptors.OneLengthMeans | packages/core/src/descriptor/parse.ts:704-756 | The multipath rule of BIP-389: one number of alternatives serves every key that offers any. |
| Descriptors.AcceptedExactly | packages/core/src/descriptor/parse.ts:704-756 | A descriptor is accepted if and only if its text is permitted, its body reads as a placed script, and, unless a bad checksum is allowed, withChecksum leaves the text unchanged; what it then reports of its body, its checksum and their agreement. |
| Descriptors.MistypedRefused | packages/core/src/descriptor/parse.ts:704-717 | A body with up to four characters in a row wrong, under the right body's checksum, is refused by the parser. |
| Descriptors.DescriptorReads | packages/core/src/descriptor/parse.ts:704-756 | A body with its checksum is accepted as the script it denotes, with that checksum reported valid. |
| Descriptors.DescriptorRoundTrip | packages/core/src/descriptor/parse.ts:704-756 | Every accepted descriptor, printed and given its checksum, is accepted again as the same tree with every key settled. |
| Descriptors.DescriptorRoundTripExact | packages/core/src/descriptor/parse.ts:704-756 | It is accepted as exactly the same tree if and only if every multipath key in it stores a zero as its last step. |
| Derive.DerivePubkeyAtLoop | packages/core/src/descriptor/derive-key.ts:32-96 | Pushing the segments, overwriting the last with the branch, pushing the index and descending computes the derivation function with its refusals. |
| Derive.StoredPathSegments | packages/core/src/descriptor/derive-key.ts:38-51 | A stored path is read as its steps, and refused exactly when one of them is hardened. |
| Derive.CanonicalDerivesSame | packages/core/src/descriptor/derive-key.ts:72-96 | The canonical text of an accepted key derives what the typed text derives, at every index and on both sides. |
| Order.CompareLoop | packages/core/src/descriptor/multisig.ts:195-203 | The byte loop computes the lexicographic comparison. |
| Order.CompareMeans | packages/core/src/descriptor/multisig.ts:195-203 | The comparison is negative exactly when, after a common start, the first string ends or has the smaller byte, zero exactly for equal strings, positive exactly the other way round. |
| Order.CompareZero | packages/core/src/descriptor/multisig.ts:195-203 | Only equal byte strings compare equal. |
| Order.CompareTransitive | packages/core/src/descriptor/multisig.ts:195-203 | The comparison is transitive; with CompareFlip, a total order. |
| Order.CompareFlip | packages/core/src/descriptor/multisig.ts:195-203 | Swapping the operands negates the result. |
| Order.SortAscending | packages/core/src/descriptor/multisig.ts:231-233 | Sorting arranges the keys in ascending byte order. |
| Order.SortMeans | packages/core/src/descriptor/multisig.ts:231-233 | Sorting gives the same items with, of any two, the smaller key first in that sense. |
| Order.SortBag | packages/core/src/descriptor/multisig.ts:231-233 | Sorting neither loses nor adds a key. |
| Order.SortIgnoresOrder | packages/core/src/descriptor/multisig.ts:231-233 | Sorting forgets the order the items came in, when equal keys mean equal items. |
| Quorums.AcceptedShape | packages/core/src/descriptor/multisig.ts:96-192 | On an accepted descriptor multisigShape refuses only what is not a multisig and what exceeds sixteen keys; its other refusals are unreachable, and its keys are all the descriptor's keys. |
| Quorums.WrittenShape | packages/core/src/descriptor/multisig.ts:96-192 | Of any quorum as written: a shape exactly when the threshold is between one and the keys, these are at most sixteen, fifteen in bare sh, and none is uncompressed where a witness program holds it; otherwise which refusal. |
| Quorums.HexRoundTrip | packages/core/src/descriptor/multisig.ts:255-257 | Bytes written as hex read back, so different bytes are written differently. |
| Quorums.HexTextMeans | packages/core/src/descriptor/multisig.ts:255-257 | Two characters a byte, of 0123456789abcdef, the high half first. |
| Quorums.HexBytesMean | packages/core/src/descriptor/derive-key.ts:98-102 | Raw hexadecimal of either case stands for the bytes it writes. |
| Quorums.PayloadDecides | packages/core/src/descriptor/multisig.ts:325-334 | Two accepted keys have one payload text exactly when their 74 bytes agree. |
| Quorums.DeriveMultisigAddressesLoop | packages/core/src/descriptor/multisig.ts:212-253 | The loop pushes, index by index, the address of the keys derived and ordered at that index, and its first refusal is the answer. |
| Quorums.RangeEach | packages/core/src/descriptor/multisig.ts:226-252 | A run of addresses succeeds exactly when every index does, and its i-th entry is the address of index start + i alone. |
| Quorums.OrderedKeysMean | packages/core/src/descriptor/multisig.ts:226-233 | The keys in the script at an index are every member derived at that very index: in written order for multi, and those same keys in ascending byte order for sortedmulti; derived, not sorted, first. |
| Quorums.AddressesMade | packages/core/src/descriptor/multisig.ts:212-253 | Of each index in turn, the entry is what the encoder returns for the wrapping written (wsh, sh(wsh) or sh), the threshold written and every written key derived at that index, sorted for sortedmulti; its pubkeys are those keys in hexadecimal. |
| Quorums.SortedKeysAgree | packages/core/src/descriptor/multisig.ts:229-233 | BIP-67: a sorted quorum puts the same keys in its script in the same order, whichever order its members were written in. |
| Quorums.SortedAddressesAgree | packages/core/src/descriptor/multisig.ts:212-253 | So permuting the members of a sortedmulti changes no address at any index, nor whether there is one. |
| Taproot.TreeKeepsShape | packages/core/src/descriptor/taproot.ts:123-130 | buildTree keeps the outline the descriptor wrote and, left to right, the tapscripts of its leaves; it refuses only when a leaf does. |
| Taproot.OutlineDecides | packages/core/src/descriptor/taproot.ts:122-130 | An outline and its leaves are one tree: nothing is flattened or regrouped. |
| Taproot.LeafKeysMean | packages/core/src/descriptor/taproot.ts:96-110 | The keys in a leaf at an index are every member derived there and cut to 32 bytes: in written order for multi_a, and those same keys in ascending byte order for sortedmulti_a. |
| Taproot.TaprootAddressesMade | packages/core/src/descriptor/taproot.ts:138-185 | Of each index in turn, the address is the encoder's for the x-only internal key and nothing when no tree is written, or else the tree of the same outline whose leaves are the written ones: the key of a pk, the threshold and ordered keys of a quorum, all derived there. |
| Taproot.DeriveTaprootAddressesLoop | packages/core/src/descriptor/taproot.ts:138-185 | Check every leaf first, then push one address an index: the loop computes the address function. |
| Taproot.AcceptedLeaves | packages/core/src/descriptor/taproot.ts:155-166 | On an accepted descriptor the refusal of unsupported leaves is never reached. |
| Taproot.AcceptedTaprootDerives | packages/core/src/descriptor/taproot.ts:138-185 | An accepted tr() derives a run exactly when the count is within 0 to 1000 and every index in it derives. |
| Taproot.TaprootAddressesAgree | packages/core/src/descriptor/taproot.ts:88-110 | BIP-387: reordering the members of sorted leaves, at any depth of the tree, changes no address. |
| Taproot.OnlyQuorumLeaf | packages/core/src/descriptor/taproot.ts:203-228 | A summarised taproot quorum is the one leaf of the tree that is a quorum. |
| Taproot.TaprootQuorumMeans | packages/core/src/descriptor/taproot.ts:203-228 | A script tree is summarised as nothing exactly without a quorum leaf, refused exactly with several, and with one given that leaf's threshold, number, order and keys. |
| Taproot.QuorumKeysMean | packages/core/src/descriptor/multisig.ts:298-307 | The members found in a script are the keys written in its multisig, or in the one quorum among the leaves of its tree, and it refuses exactly two quorums. |
| Taproot.FindOwnKey | packages/core/src/descriptor/multisig.ts:272-290 | The loop returns the first position whose key carries this device's payload, and none exactly when no position does. |
| Taproot.QuorumAddressesEach | packages/core/src/descriptor/quorum-addresses.ts:54-61 | Each entry of a quorum's list, of either kind, is the address of its own index derived on its own. |
| Taproot.QuorumAddressMade | packages/core/src/descriptor/quorum-addresses.ts:54-61 | Both script kinds at one index: a tr gives the address the taproot writer makes, any other script the one the multisig writer makes. |
| Assemble.AssembleQuorumLoop | packages/core/src/descriptor/assemble.ts:137-255 | The builder with its map of payloads seen and its set of suffix shapes computes the assembly function with its refusals in order. |
| Assemble.FindRepeat | packages/core/src/descriptor/assemble.ts:189-198 | The map loop finds a repeated payload exactly when there is one. |
| Assemble.ShapeDecides | packages/core/src/descriptor/assemble.ts:203-205 | Two suffixes have one shape text only if they are ranged alike and cover the same branches in the same order. |
| Assemble.MemberWritten | packages/core/src/descriptor/assemble.ts:229-240 | Every member the builder reads can be written: the canonical text parses to it under its standard prefix, stands whole in an argument list and sorts by its key. |
| Assemble.BuildThenRead | packages/core/src/descriptor/assemble.ts:137-255 | Every descriptor the builder returns is accepted with a valid checksum, the one it returned beside it, and multisigShape finds the same wrapping, threshold and total, sorted, with exactly the written keys. |
| Assemble.BuiltText | packages/core/src/descriptor/assemble.ts:226-255 | In literal text, what is built is wsh(sortedmulti(k,keys)) or sh(wsh(sortedmulti(k,keys))), a hash and the checksum of what is before it. |
| Assemble.BuiltExactly | packages/core/src/descriptor/assemble.ts:137-255 | A quorum is built if and only if it has two to sixteen members, a threshold within them, every member an extended key with an origin, no key twice, all covering the same branches, and only permitted characters in their canonical texts. |
| Agreement.OrderDoesNotMatter | packages/core/src/descriptor/assemble.ts:40-54 | Any permutation of the keys is accepted or refused alike, with byte-identical descriptor, checksum and key list. |
| Agreement.SpellingDoesNotMatter | packages/core/src/descriptor/assemble.ts:209-246 | Every respelling per key of h or ', fingerprint case and SLIP-132 prefix is accepted or refused alike, and gives byte-identical results where the spellings agree on the markers that white space follows. |
| Agreement.AcceptedAlike | packages/core/src/descriptor/assemble.ts:137-255 | Whether a quorum is accepted does not depend on the spelling of its members at all, markers before white space included. |
| Agreement.EveryDeviceAgrees | packages/core/src/descriptor/assemble.ts:40-54 | Both at once: the same members, each device spelling and scanning them its own way. |
| Agreement.SameBytesExactly | packages/core/src/descriptor/assemble.ts:209-246 | The condition is exact: two spellings of one list are accepted alike, and once accepted give one descriptor if and only if they agree on every marker that white space follows. |
| Agreement.EntriesDecide | packages/core/src/descriptor/assemble.ts:189-198 | Refusing a key listed twice makes the sort strict: no two entries compare equal. |
| Agreement.BuiltKeysOrdered | packages/core/src/descriptor/assemble.ts:226-240 | The keys of a built quorum are the canonical texts of the keys given, each once, in strictly ascending order of the key, character code by character code. |
| Agreement.RewritingNeverRefuses | packages/core/src/descriptor/assemble.ts:229-232 | The canonical rewriting is never the reason a quorum is refused. |
| Agreement.RefusedBecause | packages/core/src/descriptor/assemble.ts:112-255 | Every refusal of the builder is deserved: too few or too many members, a threshold out of range, a member that does not read, is raw or has no origin, one key twice, two that cover different branches, or a text no descriptor may hold. |
| OwnedAddresses.BuildOwnedIndex | packages/daemon/src/psbt.ts:62-137 | The nested loops over script types, sides and indices, then over registrations, fill the map and count the unreadable registrations as the index function says. |
| OwnedAddresses.OwnedIndex.AddQuorum | packages/daemon/src/psbt.ts:162-238 | Folding one registration in: receive side first, leaving what was recorded when the other side fails, with the outcome of the registration function. |
| OwnedAddresses.OwnedIndex.AddBranch | packages/daemon/src/psbt.ts:222-235 | One side of a quorum is recorded entry by entry, skipping addresses already held. |
| OwnedAddresses.OwnedIndex.SetBranch | packages/daemon/src/psbt.ts:94-111 | One side of a script type is recorded index by index, or fails where the library would throw. |
| OwnedAddresses.IndexSoundAndComplete | packages/daemon/src/psbt.ts:62-137 | Every key of the index maps to an entry for that address that re-derives it: a single-signature one at m/P'/coin'/account'/c/i, P being 84, 86, 49 or 44 by its kind and c being 1 for change and 0 otherwise, or a quorum one from the registered descriptor, recorded at m/48'/coin'/account'/2' and the side and index; every single-signature address within the gap limit is there, still as one; the count beside it is of the registrations unreadable on their own. |
| OwnedAddresses.RegistrationsSound | packages/daemon/src/psbt.ts:129-134 | Registrations only add: no entry already recorded is changed by any of them. |
| OwnedAddresses.OutcomeAlone | packages/daemon/src/psbt.ts:162-238 | What comes of a registration does not depend on what is recorded already: it is added exactly when our key is in it and every side it uses derives. |
| OwnedAddresses.QuorumsComplete | packages/daemon/src/psbt.ts:208-237 | Every address within the gap limit, on each side it uses, of every readable quorum our key is in is in the final index. |
| OwnedAddresses.ChangeIsOurs | packages/daemon/src/psbt.ts:267-277 | What changeLookup answers from the built index: the address is the one at the path answered, m/P'/coin'/account'/1/i, or comes from a registered descriptor in whose second alternative for our key the path ends; and it answers for every single-signature change address within the gap limit that is not a receive one too. |
| SigningPaths.BranchIsLastStep | packages/daemon/src/psbt.ts:241-257 | The branch recorded is the last step the key derives through before the index. |
| SigningPaths.RecordedSteps | packages/daemon/src/psbt.ts:206-237 | The recorded path is the path our key derives through exactly when the key is ranged with one step; a fixed key meets it at one index at most, by coincidence. |
| SigningPaths.PlainSuffix | packages/daemon/src/psbt.ts:241-257 | For every suffix of plain steps, ranged or not: what the key stores, that its last step is the branch recorded, and the steps it derives by. |
| SigningPaths.RecordedElsewhere | packages/daemon/src/psbt.ts:241-257 | Two suffixes, /5/0/* and /7, whose recorded path is not the path their key derives through, at any index. |
| SigningPaths.OurKeyInScript | packages/daemon/src/psbt.ts:176-238 | The address a quorum derives is the script writer's for a script or tree that holds the key this device derives for it, in either script kind. |
| SigningPaths.SigningPathAgrees | packages/daemon/src/psbt.ts:162-257 | For a quorum our key joins with one step and a wildcard, the key at the recorded path from the root is among the keys the script writer was handed for that very address, on both sides. |
| OwnedAddresses.OwnedInputsFor | packages/daemon/src/psbt.ts:288-302 | The loop lists, in order and each once, exactly the inputs whose script pays an address of the index, with the path recorded for it. |
| SigningProgress.ThisDeviceProgress | packages/daemon/src/psbt.ts:346-393 | The one pass that updates the counters, the sticky null and the shortfall computes the evaluation function. |
| SigningProgress.EvaluateMeans | packages/daemon/src/psbt.ts:313-331 | completesIfSigned is null exactly when there are no inputs or some requirement is unknown, else true exactly when signing brings every input to its requirement; stillNeeded is the largest shortfall, zero exactly when it is true; alreadySigned is owning an input with nothing left to add. |
| SigningProgress.SignedMeans | packages/daemon/src/psbt.ts:346-393 | An owned input counts as signed exactly when a signature on it goes by the compressed key at the recorded path, that key without its first byte, or taproot-key-path on an address of ours at the taproot purpose. |
| SigningProgress.AddsCounted | packages/daemon/src/psbt.ts:346-393 | The signatures this device would add are as many as the inputs it owns and has not signed. |
| SigningProgress.SigningIsAStep | packages/daemon/src/psbt.ts:346-393 | After this device's signature is on each owned unsigned input, under any name its key goes by, a second evaluation adds nothing and reports the same completion and shortfall. |
| Sessions.RevealExactly | packages/daemon/src/session.ts:538-558 | Over every run: a mnemonic is returned exactly when the wallet in memory was generated and not confirmed since it was opened, and it is that wallet's. |
| Sessions.PeekExactly | packages/daemon/src/session.ts:591-614 | Over every run: the words are handed out for checking exactly under that condition and with budget left. |
| Sessions.CheckWordExactly | packages/daemon/src/ipc/methods/seed.ts:86-99 | Over every run: while a generated wallet is unconfirmed and fewer than fifteen wrong words were spent, a check answers whether the word in that place is the one given, or that there is no such place; otherwise it refuses. |
| Sessions.RevealRefusals | packages/daemon/src/session.ts:538-558 | When no words are revealed, which refusal it is, from the history alone. |
| Sessions.SeedExactly | packages/daemon/src/session.ts:525-536 | The seed is handed out exactly while a wallet is open, and it is the one that opened it. |
| Sessions.BudgetsHold | packages/daemon/src/session.ts:623-646 | Over every run: at most fifteen wrong words are answered and at most eight children derived for one opened wallet; a child is derived exactly while fewer than eight were. |
| Sessions.OneLiveSeed | packages/daemon/src/session.ts:254-312 | Over every run: unlocked exactly when a wallet is present; every seed ever given except the one in memory is disposed, and none that was not given is. |
| Sessions.NetworkFixedWhileOpen | packages/daemon/src/session.ts:213-225 | Over every run: while one wallet stays in memory no call changes the network or the fingerprint. |
| Sessions.NetworkIsChosen | packages/daemon/src/session.ts:213-225 | Over every run: the network is the last one set while no wallet was open since the last lock, mainnet without one, and the fingerprint of the wallet is of it. |
| Sessions.NeverRebound | packages/daemon/src/session.ts:369-379 | While one wallet stays in memory no call points it at another stored one, and attaching it to another is refused. |
| Sessions.PassphraseIsSaid | packages/daemon/src/session.ts:342-344 | Over every run: the passphrase flag is the one the last load or setting gave, and off after a lock. |
| Remembered.RegisteredExactly | packages/daemon/src/session.ts:489-523 | Over every run: a quorum is registered exactly when the last call since the wallet was opened that named it, or replaced the list, put it there; and forgetting it answers whether it was. |
| Remembered.NamedExactly | packages/daemon/src/session.ts:405-478 | Over every run: another key has exactly the name the last call about it gave, and none after an empty one. |
| Remembered.UsedExactly | packages/daemon/src/session.ts:369-386 | Over every run: the stored wallet in use is the one the seed was read from or the first one attached, as last renamed; and the labels are the last given. |
| Sessions.EphemeralNeverPersists | packages/daemon/src/session.ts:352-359 | Over every run: with a live seed in memory, assertPersistable passes exactly when the wallet was not opened for one session only. |
| Sessions.PersistableExactly | packages/daemon/src/session.ts:254-312 | Over every run, with no condition: assertPersistable passes exactly when the last load since the last lock, even a refused one, did not ask for one session only; where that differs from how the wallet in memory was opened, its seed is disposed. |
| Sessions.RefusedLoadClearsFlag | packages/daemon/src/session.ts:254-287 | The flag can be lost: a seed loaded for one session, then handed over again without asking for that, passes. |
| Sessions.RunFaithful | packages/daemon/src/session.ts:254-312 | Over every run: seed, words, provenance, fingerprint and confirmation are those of the load that opened the wallet and of what followed it. |
| Sessions.Session.LoadSeed | packages/daemon/src/session.ts:254-287 | Dispose the seed in memory, set the flags, read the new seed or refuse it: the whole new state, on both outcomes. |
| Sessions.Session.LoadStored | packages/daemon/src/session.ts:289-312 | The same for a seed out of the store. |
| Sessions.Session.RevealWords | packages/daemon/src/session.ts:538-558 | The three refusals in order, or the words. |
| Sessions.Session.PeekWordsForVerification | packages/daemon/src/session.ts:591-614 | The three gates in order, or the words. |
| Sessions.Session.CheckOneWord | packages/daemon/src/ipc/methods/seed.ts:86-99 | Peek, compare, and spend the budget on a word that does not match. |
| Sessions.Session.TakeChild | packages/daemon/src/session.ts:635-646 | Refuse without budget, else spend one. |
| Sessions.Session.LockNow | packages/daemon/src/session.ts:667-676 | Dispose the seed and forget everything, network and flags included. |
| Sessions.WithoutBag | packages/daemon/src/session.ts:510-516 | Forgetting a quorum takes out every copy of it and nothing else. |
| Sessions.WithBag | packages/daemon/src/session.ts:489-498 | Adding a quorum leaves it there once and every other where it was. |
| Sessions.NamedBag | packages/daemon/src/session.ts:405-410 | Naming a cosigner leaves that one name for its key, none when it is cleared, and every other name as it was. |
| Sessions.Session.HoldUnsavedLists | packages/daemon/src/session.ts:428-435 | The first unsaved change takes the snapshot; later ones leave it. |
| Sessions.Session.RecordSealedLists | packages/daemon/src/session.ts:442-458 | What was written becomes the sealed view, dropped when the live lists agree. |
| Vault.HandleRegister | packages/daemon/src/ipc/methods/multisig.ts:95-170 | Registering: the list to write is built from the sealed view, a failed write changes nothing, saving without a file is refused, and only then is the session touched. |
| Vault.HandleName | packages/daemon/src/ipc/methods/multisig.ts:208-290 | Naming a cosigner, in the same three steps; without a file it is for the session only. |
| Vault.HandleForget | packages/daemon/src/ipc/methods/multisig.ts:310-384 | Forgetting a quorum: refused exactly when it is not live, then the same three steps. |
| Vault.HandleCreate | packages/daemon/src/ipc/methods/wallets.ts:82-110 | The first save: behind its two gates and the registry, the live lists are written, the session attached and the write recorded. |
| Vault.SealedViewIsDisk | packages/daemon/src/session.ts:94-114 | Over every run of changes and first saves, saved, unsaved or failed, what a reseal would write is what the file holds, from the moment there is one. |
| Vault.UnsavedLeavesNoTrace | packages/daemon/src/session.ts:412-458 | Deleting the unsaved changes of a run leaves the same file after every step of it, if and only if no saved forget names a quorum an earlier unsaved forget took out of the session and no first save is made while unsaved changes are pending. |
| Vault.SavedAlike | packages/daemon/src/ipc/methods/multisig.ts:310-384 | The exceptions are exact step by step: with and without the unsaved changes before it, a change that is not unsaved leaves the same file if and only if it is neither of the two. |
| Vault.StrandedForget | packages/daemon/src/ipc/methods/multisig.ts:337-347 | The first exception happens: forget a saved quorum for this session, then try to forget it for good, and the file keeps it. |
| Vault.CreateSealsPending | packages/daemon/src/ipc/methods/wallets.ts:83-110 | The second exception happens: register a quorum for this session in a wallet never saved, then save the wallet, and the file holds the quorum. |
| Entropy.ValidateLoop | packages/core/src/entropy/combine.ts:68-106 | The loop with its growing set of ids reports the first complaint the validation function does. |
| Entropy.ValidateMeans | packages/core/src/entropy/combine.ts:68-106 | Validation passes exactly one to eight sources with distinct nonempty ids of at most 255 bytes and 16 to 64 bytes of material. |
| Entropy.ComplaintMeans | packages/core/src/entropy/combine.ts:68-111 | The complaint reported is one the list deserves. |
| Entropy.Utf8Injective | packages/core/src/entropy/combine.ts:114-115 | Different ids have different UTF-8 bytes (RFC 3629). |
| Entropy.EncodeSourceLoop | packages/core/src/entropy/combine.ts:113-128 | Filling the buffer by a moving offset writes the id length, the id, the two length bytes and the material. |
| Entropy.ChunkPrefix | packages/core/src/entropy/combine.ts:113-128 | A chunk carries its own lengths: nothing that follows it can be taken for part of it. |
| Entropy.ConcatInjective | packages/core/src/entropy/combine.ts:153-154 | The concatenation of any list of chunks belongs to that list only. |
| Entropy.KeyingMaterialDecides | packages/core/src/entropy/combine.ts:138-154 | Two validated lists give the same keying material if and only if they are the same sources in some order. |
| Entropy.KeyingMaterialMeans | packages/core/src/entropy/combine.ts:113-154 | What is mixed is, in ascending order of the UTF-8 bytes of the ids, each source's length byte, id, two length bytes high first, and material. |
| Entropy.CombineMeans | packages/core/src/entropy/combine.ts:138-169 | What is derived is the extraction of exactly that arrangement. |
| Entropy.CombineAnyOrder | packages/core/src/entropy/combine.ts:138-156 | The order of collection changes neither the seed nor whether there is one. |
| Labels.ImportLabelsLoop | packages/core/src/labels/bip329.ts:96-195 | The loop with its pushes, splices and set of seen keys computes the fold over the lines. |
| Labels.LineMeans | packages/core/src/labels/bip329.ts:96-195 | A line is kept as a label if and only if it is a record of one of the six types with a reference of 1 to 200 characters, a label of at most 255 without forgeable ones, and a spendable flag or none, and then it is that label. |
| Labels.KeyTextDecides | packages/core/src/labels/bip329.ts:178-183 | The key text type:ref tells labels apart exactly by type and reference. |
| Labels.ReadsLast | packages/core/src/labels/bip329.ts:108-192 | What is imported is the labels no later line replaces, in order, and the refusals are the refused lines with their numbers. |
| Labels.ImportMeans | packages/core/src/labels/bip329.ts:96-195 | No key twice; each label is the last valid line for its key, in the order of those lines; every line is blank, reported with its reason, or has its key among the labels; and only refused lines are reported. |
| Labels.FindsLastLine | packages/core/src/labels/bip329.ts:226-232 | After an import, looking up a reference gives the last valid line for it, and nothing exactly when no valid line has that type and reference. |
| Labels.ExportRoundTrip | packages/core/src/labels/bip329.ts:204-217 | Within the size limit, importing an export gives the same list back with nothing skipped if and only if every label is acceptable and no key is there twice. |
| Labels.ExportsAppend | packages/core/src/labels/bip329.ts:204-217 | Two exported files written one after the other are the export of both lists. |

## Left out

- Elliptic curves, hashes, HMAC, base58, bech32 and script encoding: parameters, as above.
- Error messages: a refusal is one constructor; the text, the positions and the values it quotes are not modelled.
- Code units: strings are sequences of Unicode scalar values, so lengths in UTF-16 units (the size limits of labels) and lone surrogates (which UTF-8 encodes alike) are not modelled.
- toLowerCase outside ASCII: the fields it is applied to are then required to be hex digits.
- Number() on text that is not a canonical path: derivation and branchOf read stored paths, which the parser has written.
- A threshold that is not a whole number: the builder's threshold is an integer here.
- Number.isSafeInteger on multipath values: numbers are unbounded and the bound of 2^31 refuses the same ones.
- Sessions.Call: the getters are not calls of the machine.
- Sessions.Session.CheckOneWord: takes the word trimmed and in lower case, as the handler makes it before the call.
- Vault.HandleCreate: the registry is taken to know the seed of an attached wallet and refuse it, which an edit of the hint beside the file could defeat.
- The legacy store, which holds one wallet without a registry: neither its create nor its reseal is modelled.
- Sessions.Session: the mutable wallet object of the source is a value the methods reassign; another reference to it is not modelled.
- Erasing of key bytes: a disposed secret is a flag.
- OwnedAddresses.Device: a public key the library reports as missing, and a wiped root, are not modelled; a derivation that throws is None.
- SigningProgress.ThisDeviceProgress: a path that no longer derives counts as a key with no text.
- signatureProgress of packages/core/src/psbt/quorum.ts: what a PSBT says of an input is the input of the model.
- signingPathsFor and isFullyHardened: one-line readings of the index and of a path, not modelled.
- Coordinator file formats, BIP-85, dice accounting, message signing, networks, the user interface and the command line.
- The printer of module Script: the repository has none for whole trees; it writes the standard form of each expression and exists to state the round trip.
- Nothing here was executed: every statement is a proof about the model.
