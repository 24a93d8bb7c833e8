# Verified models of KumoMTA's core

This project models the parts of KumoMTA whose correctness is hardest to see by reading, and proves
what they promise for all inputs, all runs and all reachable states. It is written in Dafny 4.11;
`dafny verify dfyconfig.toml` checks all of it.

**CIDR maps** (`CidrTrie`, `CidrCanonical`, `CidrMap`, `CidrSet`). Keys are bit strings: a family bit
followed by up to 32 or 128 address bits, and the empty string for "any". The trie that `insert` builds
answers every address like a last-writer-wins list, is always in a canonical form, and two maps are
structurally equal exactly when they answer alike. The iterator's stack machine yields the leaves in
order, and re-inserting them rebuilds the map. Nothing is assumed about reading a key past its end.

**DKIM** (`DkimText`, `DkimParser`, `DkimHeader`, `DkimCanon`, `DkimCanonLaws`, `DkimStandard`,
`DkimSelect`, `DkimTwoPass`, `DkimExact`, `DkimLong`, `DkimSign`, `DkimRun`, `DkimAgree`,
`DkimVerified`, `DkimStatic`, `DkimWitness`, `DkimInserted`). A byte is a character. The folding printer
and the tag parser are inverse; canonicalisation streams exactly the canonical text through the
length-limited hasher, and agrees with RFC 6376 exactly where `DkimStandard` says; header selection is
bottom-up and selects nothing twice. The main result is that signing and verifying hash the same bytes
exactly when the signature's length is *fold-safe*: less than 73, or at least 75 with `(n - 73) mod 75
!= 0`. At the other lengths a fold falls right before or after the signature and the whitespace of that
fold is left in the verifier's text. Three forms of it are proved: for any signature text that occurs
once in its header; for every base64 text, where the two sides agree exactly when the length is
fold-safe and the text does not also stand before `b=`; and for every key whose signatures have 75
characters or more, where the length alone decides, provided that domain, selector, times and body hash
are shorter than a line or have a dot in every 73 characters, as domain names do. Headers put in front
afterwards do no harm exactly when the header list does not reach them. With over-signing, one header
more under a listed name makes a signature that verified fail. Hashing, signing and keys are arbitrary
functions; "verify accepts what was signed" and "this signature is not taken for one of other bytes" are
hypotheses where they are needed, and `DkimWitness` has a scheme that meets them all.

**ARC** (`ArcHeaders`, `ArcChain`, `ArcPass`, `ArcVerify`, `ArcLinks`, `ArcSeal`, `ArcExtend`,
`ArcRounds`, `ArcWitness`). A message passes exactly when its ARC headers form a chain whose links all
hold. Sealing a message that does not fail gives one that passes, with exactly one set more, if and only
if there were fewer than 50 sets, the length of the key's signatures is fold-safe, and no AMS, old or
new, lists more ARC headers than the message had; over any number of rounds such a chain passes until it
has 50 sets, and fails after that.

**Counter series** (`CounterSeries`, `CounterRuns`). The ring of buckets refines a sliding window, and
over every pattern of calls the sum lies between two real-time windows.

**Domain maps** (`DomainNames`, `DomainMap`). A trie of heap nodes, updated in place, refines a flat map
from patterns to values.

**Context pool** (`ConfigPool`, `PoolRuns`, `PoolSafety`, `PoolCalls`). A state machine over every
interleaving of loads, hand-outs, returns, expiry, drops and epoch bumps.

**MX plan** (`MxGroups`, `MxPlan`, `MxLaws`). From an MX answer to the list that the dispatcher pops
from: its order, and that nothing is lost or duplicated.

`Strings`, `Decimal` and `Common` hold what several of these share.

Where the code differs from its documentation or standard, the model follows the code:

- Relaxed body canonicalisation keeps an empty line at the end that section 3.4.4 of RFC 6376 ignores:
  it drops empty lines only while two CRLFs end the body, and before it strips whitespace. A body of one
  CRLF is therefore hashed as a CRLF, and so is a last line of whitespace only. It also takes away a CR
  or LF of its own at the end of a line. `DkimStandard.RelaxedIsStandardIff` says exactly when code and
  standard agree; `DkimStandard.EmptyLineHashed` and `DkimStandard.BareCr` show a body of each kind.
  For the same reason one round need not be a fixed point; see `DkimCanonLaws.RelaxedBodyOnceIff` and
  the body of `DkimCanonLaws.BlankLastLine`.
- Simple body canonicalisation adds no CRLF to a body that lacks one, though section 3.4.3 of RFC 6376 does;
  see `DkimStandard.SimpleIsStandardIff` and the body of `DkimStandard.CrlfMissing`.
- Simple header canonicalisation writes a colon and a space whatever stood between name and value
  (section 3.4.1 of RFC 6376 changes nothing); see `DkimStandard.SimpleHeaderIsStandardIff` and
  `DkimStandard.SpaceAdded`.
- Relaxed header canonicalisation deletes every CR and LF of a value, where section 3.4.2 of RFC 6376
  deletes only the folds; see `DkimStandard.RelaxedValueIsStandardIff` and `DkimStandard.CrInValue`.
- Signatures of a length that is not fold-safe, or whose text also occurs before `b=`, do not verify;
  see `DkimVerified.SignedVerifiesExactly` and `DkimStatic.SignedVerifiesByLength`. Base64 has lengths
  that are multiples of four, and of those the failing ones are 148, 448, 748 and so on, by
  `DkimLong.UnsafeLengths`; `DkimWitness.Fails148` and `DkimExact.RepeatedText` show one of each kind.
- Sealing does not look at the number of sets: a chain of 50 is given a set 51, which no verifier reads,
  and the message then fails. Nor does it look at the header lists: an AMS that lists more ARC headers
  than there were fails once a set is added. See `ArcExtend.SealTooMany` and `ArcExtend.SealPassesIff`.
- A wildcard pattern of a domain map does not match a name once any pattern continues further along that
  name, although the documentation allows every name without an exact match to resolve through a
  wildcard; see `DomainNames.FoundIff`, `DomainNames.WildcardIff` and the map of
  `DomainNames.WildcardHidden`.
- With a port in the domain, a null MX host reads `.:port` and is no longer recognised as one; see
  `MxLaws.NullIff` and `MxLaws.NullHidden`.
- A limit of zero uses does not keep a context from being used once; see `PoolSafety.NoUsesAllowed`.

## Model

| member | source | states |
|---|---|---|
| CidrTrie.FindItemIsLookup | crates/cidr-map/src/map.rs:453-464 | routing by single bits with one check at the leaf finds exactly the leaf whose key covers the address, whatever reading past the end of a key gives |
| CidrTrie.FindItemSound | crates/cidr-map/src/map.rs:448-464 | looking up a whole network other than `any` never returns a value other than that of its first address |
| CidrTrie.FindItemCovered | crates/cidr-map/src/map.rs:448-464 | a network other than `any` that lies under a leaf is found there, whatever reading past its end gives |
| CidrTrie.NewInnerWf | crates/cidr-map/src/map.rs:203-224 | joining two nodes that part at a bit gives a well-formed node: the side-picking assertion holds |
| CidrTrie.NewInnerLookup | crates/cidr-map/src/map.rs:203-224 | joining a node with a new leaf changes exactly the addresses under the leaf |
| CidrTrie.SplitLookup | crates/cidr-map/src/map.rs:284-300 | the linear split of a covering leaf gives the new value under the key and the old one everywhere else in the leaf |
| CidrTrie.SplitWf | crates/cidr-map/src/map.rs:284-300 | the linear split is well formed, and canonical when the values differ |
| CidrTrie.CompressLookup | crates/cidr-map/src/map.rs:382-419 | merging equal sibling leaves changes no lookup |
| CidrTrie.InsertedWf | crates/cidr-map/src/map.rs:308-419 | insertion keeps the tree well formed and canonical, and never shortens its key below what it shares with the new one |
| CidrTrie.InsertedLookup | crates/cidr-map/src/map.rs:308-419 | insertion is a point-wise update: addresses under the key give the new value, all others are as before |
| CidrTrie.UncompressedWf | crates/cidr-map/src/map.rs:259-306 | uncompressed insertion keeps the tree well formed |
| CidrTrie.UncompressedLookup | crates/cidr-map/src/map.rs:259-306 | uncompressed insertion is the same point-wise update |
| CidrCanonical.KeyUnique | crates/cidr-map/src/map.rs:226-232 | the key of a tree is determined by its lookups |
| CidrCanonical.ConstantIsLeaf | crates/cidr-map/src/map.rs:382-419 | a canonical tree that gives one value everywhere is a single leaf |
| CidrCanonical.CanonicalUnique | crates/cidr-map/src/map.rs:308-419 | canonical trees with the same lookups are equal |
| CidrCanonical.LeavesOrdered | crates/cidr-map/src/map.rs:549-593 | the keys that the iterator yields are strictly increasing and none is a prefix of another |
| CidrCanonical.LeavesLookup | crates/cidr-map/src/map.rs:549-593 | the yielded entries, read as a list, answer every address like the tree |
| CidrMap.SplitPath | crates/cidr-map/src/map.rs:288-299 | the loop builds the split path |
| CidrMap.InsertNode | crates/cidr-map/src/map.rs:308-419 | the branches of `insert` compute the insertion that the laws are about |
| CidrMap.InsertNodeUncompressed | crates/cidr-map/src/map.rs:259-306 | the branches of `insert_uncompressed` compute the uncompressed insertion |
| CidrMap.CidrMap.Insert | crates/cidr-map/src/map.rs:486-498 | the map stays valid and canonical, and its lookups change exactly under the key |
| CidrMap.CidrMap.InsertUncompressed | crates/cidr-map/src/map.rs:470-482 | the map stays valid, and its lookups change exactly under the key |
| CidrMap.CidrMap.GetPrefixMatch | crates/cidr-map/src/map.rs:443-464 | returns the value of the covering leaf, or nothing |
| CidrMap.FromEntries | crates/cidr-map/src/map.rs:596-607 | collecting entries is inserting them in order |
| CidrMap.ToVec | crates/cidr-map/src/map.rs:623-631 | the vector holds exactly the leaves in order |
| CidrMap.Iter.constructor | crates/cidr-map/src/map.rs:533-541 | a new iterator has all leaves before it |
| CidrMap.Iter.Next | crates/cidr-map/src/map.rs:549-593 | terminates, yields the next leaf exactly once, and ends when none is left |
| CidrMap.BuiltLookup | crates/cidr-map/src/map.rs:486-498 | after any run of inserts the tree is canonical and the most recently inserted covering prefix wins |
| CidrMap.BuiltUncompressedLookup | crates/cidr-map/src/map.rs:470-482 | after any run of uncompressed inserts the most recently inserted covering prefix wins |
| CidrMap.UncompressedAgrees | crates/cidr-map/src/map.rs:453-498 | both kinds of run answer every routed lookup alike |
| CidrMap.SameTreeIffSameLookups | crates/cidr-map/src/map.rs:308-419 | two runs of inserts build structurally equal maps exactly when they answer every address alike |
| CidrMap.ListingRoundTrip | crates/cidr-map/src/map.rs:78-118 | writing a map out and reading it back rebuilds the same tree |
| CidrSet.ContainsIffCovered | crates/cidr-map/src/set.rs:27-33 | an address is in the set exactly when some inserted network covers it |
| CidrSet.OrderIrrelevant | crates/cidr-map/src/set.rs:75-86 | sets are equal exactly when they cover the same addresses: order and duplicates do not matter |
| CidrSet.CidrSet.Insert | crates/cidr-map/src/set.rs:31-33 | the set then holds one network more |
| CidrSet.CidrSet.Contains | crates/cidr-map/src/set.rs:27-29 | answers whether some inserted network covers the address |
| CidrSet.TryFromTexts | crates/cidr-map/src/set.rs:88-134 | succeeds exactly when every text parses, holding all of them, and otherwise reports exactly those that do not |
| DkimParser.BodyRead | crates/dkim/src/parser.rs:69-100 | a printed value reads back as its runs, and raw as its text |
| DkimParser.ValueOf | crates/dkim/src/parser.rs:41-60 | the whitespace around a value is skipped by both readers of it |
| DkimParser.TagSpecOf | crates/dkim/src/parser.rs:41-60 | a printed tag reads back with its name, value and raw value |
| DkimParser.TagListOf | crates/dkim/src/parser.rs:23-39 | the parser undoes any rendering of a tag list and consumes all of it |
| DkimHeader.EmitBroken | crates/dkim/src/header.rs:147-156 | the loop writes the signature broken at column 75 |
| DkimHeader.EmitNames | crates/dkim/src/header.rs:132-145 | the loop writes the header list folded between names |
| DkimHeader.Serialize | crates/dkim/src/header.rs:96-170 | the loops print the tags as the layout says, folds included |
| DkimHeader.LayoutOf | crates/dkim/src/header.rs:96-170 | every layout spells the names and values it was made from, with whitespace only where the parser allows it |
| DkimHeader.RoundTrip | crates/dkim/src/header.rs:18-30 | for every non-empty map with alphabetic names and VALCHAR values, parsing the folded text succeeds, reads all of it and gives the same names and values in order (section 3.2 of RFC 6376) |
| DkimCanon.LimitHasher.Hash | crates/dkim/src/hash.rs:31-37 | whatever the chunks, exactly the first bytes up to the limit are hashed, and the count stays within the limit |
| DkimCanon.TrimWsEnd | crates/dkim/src/canonicalization.rs:187-197 | the loop removes exactly the blanks at the end |
| DkimCanon.TrimWsStart | crates/dkim/src/canonicalization.rs:177-185 | the loop removes exactly the blanks at the start |
| DkimCanon.DropTrailingEmptyLines | crates/dkim/src/canonicalization.rs:35-45 | the loop removes exactly the empty lines at the end |
| DkimCanon.IterLines.Next | crates/dkim/src/canonicalization.rs:61-86 | yields the next line, with its CRLF, and ends when none is left |
| DkimCanon.HashRelaxedLine | crates/dkim/src/canonicalization.rs:110-135 | one raw line feeds its relaxed form, with each run of whitespace as one space |
| DkimCanon.BodyRelaxed | crates/dkim/src/canonicalization.rs:100-137 | the hasher has been fed the line-by-line relaxed body |
| DkimCanon.BodySimple | crates/dkim/src/canonicalization.rs:35-51 | the hasher has been fed the simple body |
| DkimCanon.HashedBody | crates/dkim/src/hash.rs:99-117 | exactly the first `limit` bytes of the canonical body are hashed (section 3.4.5 of RFC 6376) |
| DkimCanon.CanonHeaderInto | crates/dkim/src/canonicalization.rs:140-175 | appends the canonical header, in either form |
| DkimCanonLaws.LinesConcat | crates/dkim/src/canonicalization.rs:54-96 | the pieces of the line iterator concatenate back to the body |
| DkimCanonLaws.UnfoldingIrrelevant | crates/dkim/src/canonicalization.rs:148-175 | deleting every CR and LF from a value does not change its relaxed form |
| DkimCanonLaws.CanonHeaderIdempotent | crates/dkim/src/canonicalization.rs:148-175 | relaxing a relaxed header changes nothing |
| DkimCanonLaws.RelaxedBodyTwice | crates/dkim/src/canonicalization.rs:100-137 | relaxed body canonicalisation applied twice is a fixed point |
| DkimCanonLaws.RelaxedBodyOnceIff | crates/dkim/src/canonicalization.rs:100-137 | once suffices exactly when, without its trailing empty lines, the body is one line or its last line has a byte that is not blank |
| DkimCanonLaws.BlankLastLine | crates/dkim/src/canonicalization.rs:100-137 | the body `a`, CRLF, space, CRLF is not a fixed point after one round |
| DkimCanonLaws.SimpleBodyIdempotent | crates/dkim/src/canonicalization.rs:35-51 | simple body canonicalisation is idempotent |
| DkimCanonLaws.SimpleEndsInCrlfIff | crates/dkim/src/canonicalization.rs:35-45 | the simple body ends in CRLF exactly when the body was empty or did so already |
| DkimStandard.RelaxedIsStandardIff | crates/dkim/src/canonicalization.rs:100-137 | the relaxed body is that of section 3.4.4 of RFC 6376 exactly when it is empty or, without the empty lines at its end, its last line is not blank, and no line ends in a CR or LF of its own |
| DkimStandard.EmptyLineHashed | crates/dkim/src/canonicalization.rs:35-45 | the body CRLF is hashed as CRLF, where the standard hashes nothing |
| DkimStandard.BareCr | crates/dkim/src/canonicalization.rs:110-135 | the body `a`, CR, CR, LF loses a CR that the standard keeps |
| DkimStandard.SimpleIsStandardIff | crates/dkim/src/canonicalization.rs:35-51 | the simple body is that of section 3.4.3 of RFC 6376 exactly when it is empty or ends in CRLF |
| DkimStandard.CrlfMissing | crates/dkim/src/canonicalization.rs:35-51 | the body `a` is hashed without CRLF, where the standard adds one |
| DkimStandard.SimpleHeaderIsStandardIff | crates/dkim/src/canonicalization.rs:140-147 | the simple header is that of section 3.4.1 of RFC 6376 exactly when a colon and a space stood between name and value |
| DkimStandard.SpaceAdded | crates/dkim/src/canonicalization.rs:140-147 | a header without a space behind its colon is hashed with one |
| DkimStandard.RelaxedValueIsStandardIff | crates/dkim/src/canonicalization.rs:148-175 | the relaxed value is that of section 3.4.2 of RFC 6376 exactly when unfolding leaves no CR or LF in it |
| DkimStandard.CrInValue | crates/dkim/src/canonicalization.rs:148-175 | a CR of its own inside a value is lost, where the standard keeps it |
| DkimSelect.KthIff | crates/dkim/src/hash.rs:169-202 | the header chosen for an occurrence is the one with exactly that many namesakes below it; none is chosen exactly when there are too few |
| DkimSelect.KthFinds | crates/dkim/src/hash.rs:169-202 | every header is the choice for its own count |
| DkimSelect.ConcreteHeaderList | crates/dkim/src/hash.rs:169-202 | the loop with its map of last positions selects as section 5.4.2 of RFC 6376 says |
| DkimSelect.SelectedIff | crates/dkim/src/hash.rs:169-202 | a header is selected exactly when some position of the list chooses it |
| DkimSelect.SelectedAre | crates/dkim/src/hash.rs:169-202 | the headers that are hashed are those at the selected positions, one for one |
| DkimSelect.SelectedOnce | crates/dkim/src/hash.rs:169-202 | no header instance is selected twice |
| DkimSelect.PrependIrrelevant | crates/dkim/src/hash.rs:169-202 | headers put in front do not change the selection when the list asks for no more headers of their names than there were |
| DkimSelect.SortDedupOf | crates/dkim/src/hash.rs:131-138 | the sorted and deduplicated names are increasing and are those of the list |
| DkimSelect.ComputeOverSigned | crates/dkim/src/hash.rs:130-151 | the loop lists each name once more than the message has it |
| DkimSelect.OneMoreCount | crates/dkim/src/hash.rs:130-151 | each listed name occurs exactly once more than in the message |
| DkimSelect.OverSignedSelects | crates/dkim/src/hash.rs:130-202 | an over-signed list selects every listed header, and nothing else, of any message with at most one more of each |
| DkimTwoPass.ReplaceOnce | crates/dkim/src/hash.rs:226-227 | a text that occurs once is cut out and nothing else |
| DkimTwoPass.BBodyEnds | crates/dkim/src/header.rs:146-162 | the printed signature has whitespace before or after it exactly when its length is not fold-safe |
| DkimTwoPass.CutText | crates/dkim/src/hash.rs:223-239 | cutting the raw signature out leaves the first-pass text plus the whitespace folded around it |
| DkimTwoPass.SameTextIff | crates/dkim/src/hash.rs:223-239 | both passes canonicalise to the same header exactly when the length is fold-safe |
| DkimExact.CanonSolids | crates/dkim/src/canonicalization.rs:140-175 | headers with the same canonical form, in either form, have equally many bytes that are not blank |
| DkimExact.OnlyHere | crates/dkim/src/hash.rs:226-227 | the text of a base64 signature occurs where it was put, perhaps before `b=`, and nowhere else |
| DkimExact.RepeatedTextDiffers | crates/dkim/src/hash.rs:226-227 | a signature whose text also stands before `b=` makes the two canonical headers differ, in either form and at every length |
| DkimExact.RepeatedText | crates/dkim/src/hash.rs:226-227 | the signature `AAAA` in a header with `d=AAAA` makes the two canonical headers differ |
| DkimExact.SameTextExactly | crates/dkim/src/hash.rs:223-239 | both passes canonicalise to the same header exactly when the length is fold-safe and the text does not also stand before `b=` |
| DkimLong.LongNotBefore | crates/dkim/src/header.rs:96-170 | the text of a signature of 75 characters or more, without a dot, never stands before `b=` when every value but the header list is shorter than a line or has a dot in every 73 characters |
| DkimLong.LongSameTextIff | crates/dkim/src/hash.rs:223-239 | both passes of such a header canonicalise to the same text exactly when the length is fold-safe |
| DkimLong.UnsafeLengths | crates/dkim/src/header.rs:146-162 | of the lengths base64 has, exactly those that leave 148 modulo 300 are not fold-safe |
| DkimSign.NamesParse | crates/dkim/src/parser.rs:106-134 | the names written for an algorithm and a pair of canonicalisations read back as such |
| DkimSign.ComputeHeadersInput | crates/dkim/src/hash.rs:205-245 | the buffer holds the canonical selected headers and then the signature header without its signature and final CRLF |
| DkimSign.TryEveryKey | crates/dkim/src/lib.rs:235-253 | every key is tried, and if none accepts the last error, whatever it was, is reported |
| DkimVerified.TryKeysAccepts | crates/dkim/src/lib.rs:235-253 | the keys accept exactly when one of them does |
| DkimRun.ParseTagged | crates/dkim/src/header.rs:18-30 | the loop fills the ordered map that parsing gives |
| DkimRun.ComputeBodyHash | crates/dkim/src/hash.rs:99-117 | the digest is that of the canonical body up to the length, or up to the largest `usize` when there is none |
| DkimRun.HeaderBuilder | crates/dkim/src/sign.rs:252-307 | the builder ends up with the planned tags in order |
| DkimRun.Sign | crates/dkim/src/sign.rs:173-250 | the two passes produce the header that the laws are about, or the error of the signing library |
| DkimRun.VerifyHeader | crates/dkim/src/lib.rs:184-254 | the sequence of checks gives the verdict that the laws are about |
| DkimAgree.PlanValid | crates/dkim/src/sign.rs:252-307 | the names a signer writes are distinct and the values are VALCHARs, so the header reads back |
| DkimAgree.ReceivedParses | crates/dkim/src/header.rs:18-30 | the signed header parses to the signer's tags, with the raw signature text |
| DkimAgree.ListRead | crates/dkim/src/lib.rs:201-206 | the verifier's header list is the signer's |
| DkimAgree.InputsSameIff | crates/dkim/src/hash.rs:205-245 | over the same headers, both sides hash the same bytes exactly when the two texts canonicalise alike |
| DkimAgree.InputsAgreeIff | crates/dkim/src/hash.rs:205-245 | over the same headers, both sides hash the same bytes exactly when the length is fold-safe |
| DkimVerified.SignImplIs | crates/dkim/src/sign.rs:173-250 | what signing produces, and what its first pass hashes, in terms of the two texts |
| DkimVerified.HashedBytesSameIff | crates/dkim/src/sign.rs:173-250 | for every message, list, canonicalisation and signature, with the signature header in front, the verifier hashes the signer's bytes exactly when the header's own two texts canonicalise alike |
| DkimVerified.HashedBytesAgreeIff | crates/dkim/src/sign.rs:173-250 | for every message, list and canonicalisation, with the signature header in front, the verifier hashes the signer's bytes exactly when the length is fold-safe |
| DkimVerified.HashedBytesAgreeExactly | crates/dkim/src/sign.rs:173-250 | the same for every base64 signature: exactly when the length is fold-safe and the text does not also stand before `b=` |
| DkimVerified.VerdictOnBytes | crates/dkim/src/lib.rs:184-254 | once the header reads back, the verdict depends only on the hashed bytes |
| DkimVerified.SignedVerifiesIff | crates/dkim/src/lib.rs:184-254 | a signed message verifies when its signature is fold-safe, and only then if the scheme cannot be fooled |
| DkimVerified.SignedVerifiesExactly | crates/dkim/src/lib.rs:184-254 | with base64 signatures and a scheme that cannot be fooled, a signed message verifies exactly under that condition |
| DkimStatic.SameTextByLength | crates/dkim/src/sign.rs:173-250 | for a key whose signatures have n >= 75 characters and a signer whose texts are short or dotted, both passes canonicalise alike exactly when n is fold-safe, whatever the message |
| DkimStatic.SignedVerifiesByLength | crates/dkim/src/lib.rs:184-254 | every message signed with such a key verifies, with any headers in front, when n is fold-safe and the list does not reach those headers, and otherwise does not, unless its signature is taken for one of other bytes |
| DkimWitness.HypothesesHold | crates/dkim/src/sign.rs:173-250 | some scheme and signer meet all the hypotheses of these laws together, for every message and length |
| DkimWitness.Fails148 | crates/dkim/src/sign.rs:173-250 | with signatures of 148 characters no message verifies, with signatures of 172 every one does |
| DkimInserted.OverSignedLength | crates/dkim/src/hash.rs:130-202 | the canonical text of what an over-signed list selects is as long as all listed headers together, in any message with at most one more of each |
| DkimInserted.UnsettledGrows | crates/dkim/src/hash.rs:169-202 | a list that asks for more headers than there were selects a longer text once headers of that name are put in front |
| DkimInserted.InsertedFails | crates/dkim/src/sign.rs:58-63 | with over-signing, a signature that verifies on a message fails once a header with a listed name is inserted, at any place |
| ArcVerify.Collect | crates/dkim/src/arc.rs:159-245 | one pass groups the headers of a name by instance and counts those that do not parse |
| ArcVerify.AssembleSets | crates/dkim/src/arc.rs:247-310 | sets exist exactly for the complete instances, with an issue for every other one that has a header |
| ArcVerify.FindGaps | crates/dkim/src/arc.rs:312-324 | an issue for every set whose predecessor is missing |
| ArcVerify.ValidateSignatures | crates/dkim/src/arc.rs:337-455 | the loop stops at the first broken link, having validated exactly those before it |
| ArcVerify.Verify | crates/dkim/src/arc.rs:159-335 | the passes together compute the verdict that the laws are about |
| ArcPass.ClassIff | crates/dkim/src/arc.rs:247-310 | an instance counts as present exactly when it has one seal, one AMS and one AAR |
| ArcPass.Contiguous | crates/dkim/src/arc.rs:312-324 | without gaps, the sets are those of instances 1 to n |
| ArcPass.NoIssuesIff | crates/dkim/src/arc.rs:159-455 | no issue is found exactly when the sets form a chain and every link holds |
| ArcPass.NoIssuesValidated | crates/dkim/src/arc.rs:61-73 | without issues the last validated instance is the number of sets, so that branch of the status is never taken |
| ArcPass.PassIff | crates/dkim/src/arc.rs:61-455 | a message passes with given sets exactly when they are one or more, numbered from 1, each once, and every AMS, seal and `cv` is right |
| ArcPass.NoneIff | crates/dkim/src/arc.rs:61-73 | the status is none exactly when no header has one of the three ARC names |
| ArcSeal.AmsParses | crates/dkim/src/arc.rs:117-123 | the new AMS parses with its instance, from 1 to 50, whatever the length of its signature |
| ArcSeal.AmsTooMany | crates/dkim/src/arc.rs:115-123 | the AMS of instance 51 does not parse |
| ArcSeal.SealParses | crates/dkim/src/arc.rs:142-154 | the new seal parses with the next instance and the right `cv`, whatever the length of its signature |
| ArcSeal.NewAmsVerifies | crates/dkim/src/arc.rs:117-123 | the new AMS verifies on the sealed message when its length is fold-safe and its list does not reach the headers in front, and otherwise does not, unless it is taken for a signature of other bytes |
| ArcSeal.NewSealVerifies | crates/dkim/src/arc.rs:132-154 | the new seal verifies over all headers it covers when its length is fold-safe, and otherwise does not, unless it is taken for a signature of other bytes |
| ArcLinks.AmsUnaffected | crates/dkim/src/arc.rs:337-365 | an AMS that lists no more headers of the new names than there were verifies as before when headers are put in front |
| ArcLinks.AmsAffected | crates/dkim/src/arc.rs:337-365 | an AMS that lists more of them no longer verifies, unless it is taken for a signature of other bytes |
| ArcExtend.ChainGrows | crates/dkim/src/arc.rs:105-157 | the new set continues the chain |
| ArcExtend.SealedIs | crates/dkim/src/arc.rs:105-157 | the sealed message of the laws is the message with what `seal` gives in front, or unchanged where `seal` gives nothing |
| ArcExtend.SealExtends | crates/dkim/src/arc.rs:105-157 | sealing a chain that does not fail, with fewer than 50 sets, a key of fold-safe length and no AMS that lists more ARC headers than there are, gives a message that passes with exactly one set more (section 5.1 of RFC 8617) |
| ArcExtend.SealTooMany | crates/dkim/src/arc.rs:111-123 | sealing a chain of 50 sets gives a message that fails |
| ArcExtend.SealPassesIff | crates/dkim/src/arc.rs:105-157 | the sealed message passes exactly when there were fewer than 50 sets, the length is fold-safe, and no AMS, old or new, lists more ARC headers than there were |
| ArcRounds.SealAdds | crates/dkim/src/arc.rs:105-157 | while there is room, the sealed message can be sealed again, keeps its earlier sets and has one more |
| ArcRounds.SealRun | crates/dkim/src/arc.rs:105-157 | over any number of rounds up to 50 sets, each adds one set to a chain that keeps passing, if no AMS lists more ARC headers than the first message had |
| ArcRounds.SealRunIff | crates/dkim/src/arc.rs:105-157 | after any number of such rounds the message passes if there are at most 50 sets, and fails otherwise |
| ArcRounds.SealRunExactly | crates/dkim/src/arc.rs:105-157 | from any chain that does not fail, the message passes after any number of rounds exactly when there are at most 50 sets, the length is fold-safe and no AMS, old or new, listed more ARC headers than there were at the start; otherwise it fails, in the first round or when the room is used up, and stays failed |
| ArcWitness.ExampleRounds | crates/dkim/src/arc.rs:105-157 | with a scheme that meets all the hypotheses, any message without ARC headers passes after 1 to 50 rounds and fails after more |
| Decimal.ParseShow | crates/dkim/src/header.rs:82-93 | a printed number reads back, as instances and ports do |
| CounterSeries.CounterSeries.constructor | crates/kumo-counter-series/src/lib.rs:55-66 | a new series holds its initial value in the newest bucket and nothing else |
| CounterSeries.CounterSeries.Prune | crates/kumo-counter-series/src/lib.rs:87-93 | zeroes exactly the newest buckets of the window |
| CounterSeries.CounterSeries.Rotate | crates/kumo-counter-series/src/lib.rs:74-95 | moves the window on by the whole intervals passed, zero-filling, however many they are; the second clock reading is what is remembered |
| CounterSeries.CounterSeries.Increment | crates/kumo-counter-series/src/lib.rs:99-102 | rotates and adds to the newest bucket, saturating, and changes no other |
| CounterSeries.CounterSeries.Delta | crates/kumo-counter-series/src/lib.rs:105-112 | rotates and moves the newest bucket up or down, saturating both ways |
| CounterSeries.CounterSeries.Observe | crates/kumo-counter-series/src/lib.rs:115-118 | rotates and sets the newest bucket |
| CounterSeries.CounterSeries.Total | crates/kumo-counter-series/src/lib.rs:121-124 | the sum of the whole window, modulo 2^64 |
| CounterSeries.CounterSeries.TotalOver | crates/kumo-counter-series/src/lib.rs:129-145 | the sum, modulo 2^64, of the newest buckets that the span takes in, rounded up and clamped |
| CounterSeries.Moved | crates/kumo-counter-series/src/lib.rs:80-84 | moving the current position shifts the window, for any number of slots |
| CounterSeries.SumWindow | crates/kumo-counter-series/src/lib.rs:121-124 | the ring and the window have the same sum |
| CounterRuns.RunAccounted | crates/kumo-counter-series/src/lib.rs:74-102 | after any calls, the newest m buckets hold exactly the increments of the last m slots |
| CounterRuns.RunPaced | crates/kumo-counter-series/src/lib.rs:74-95 | between any two calls a slot stands for at least one and at most two intervals |
| CounterRuns.CountedBounds | crates/kumo-counter-series/src/lib.rs:74-145 | an increment is counted for at least m - 1 intervals and no longer after 2m - 1, whatever calls lie between |
| CounterRuns.SumBounds | crates/kumo-counter-series/src/lib.rs:121-145 | the total of the newest m buckets lies between the increments of the last m - 1 intervals and those of less than 2m - 1 |
| CounterRuns.Replay | crates/kumo-counter-series/src/lib.rs:99-145 | the class, driven by any calls, gives the total that the laws are about |
| DomainNames.NameLabels | crates/domain-map/src/lib.rs:132-146 | joining the labels of a name gives the name back |
| DomainNames.LabelsName | crates/domain-map/src/lib.rs:132-146 | splitting the joined name gives the labels back |
| DomainNames.DepthIff | crates/domain-map/src/lib.rs:98-119 | a lookup stops at the one level up to which some pattern continues and beyond which none does |
| DomainNames.ExactWins | crates/domain-map/src/lib.rs:105-108 | a pattern that was inserted is found under its own name, whatever wildcards there are |
| DomainNames.WildcardIff | crates/domain-map/src/lib.rs:112-116 | otherwise exactly the wildcard at the first level where patterns stop counts, with no way back to earlier ones |
| DomainNames.FoundIff | crates/domain-map/src/lib.rs:98-119 | a name is found exactly when it is a pattern, or the wildcard at the level where patterns stop is one |
| DomainNames.InnerNotFound | crates/domain-map/src/lib.rs:105-108 | a name that only lies on the way to longer patterns is not found |
| DomainNames.WildcardHidden | crates/domain-map/src/lib.rs:98-119 | with the patterns `*.example.com` and `a.b.example.com`, neither `b.example.com` nor `x.b.example.com` is found, while `x.example.com` is |
| DomainNames.LookupSound | crates/domain-map/src/lib.rs:98-119 | what is found was inserted under a pattern that matches, and a wildcard has no more labels than the name |
| DomainMap.Follow | crates/domain-map/src/lib.rs:98-119 | a node has a child exactly when some pattern continues there, and the child holds its pattern's value |
| DomainMap.DomainMap.Get | crates/domain-map/src/lib.rs:98-119 | the cursor's walk gives what the flat map's lookup gives |
| DomainMap.DomainMap.Entry | crates/domain-map/src/lib.rs:82-87 | finds or makes the child in place and leaves every other node alone |
| DomainMap.DomainMap.Insert | crates/domain-map/src/lib.rs:79-96 | the trie stays linked and the flat map gains exactly this entry |
| DomainMap.DomainMap.Walk | crates/domain-map/src/lib.rs:132-146 | adds exactly the entries below a node, in whatever order the keys come |
| DomainMap.DomainMap.ToMap | crates/domain-map/src/lib.rs:148-155 | the result is the flat map |
| DomainMap.FromMap | crates/domain-map/src/lib.rs:122-130 | the trie refines the given map |
| DomainMap.MapRoundTrip | crates/domain-map/src/lib.rs:122-155 | a map made into a trie comes back unchanged |
| DomainMap.TrieRoundTrip | crates/domain-map/src/lib.rs:122-155 | a trie written out and read back answers every lookup as before |
| ConfigPool.Pool.Get | crates/config/src/pool.rs:71-82 | gives the first context usable at its turn, dropping those before it, with both gauges adjusted |
| ConfigPool.Pool.Put | crates/config/src/pool.rs:84-111 | keeps the context if it is current, young, has a use left and there is room, and otherwise drops it |
| ConfigPool.Pool.Expire | crates/config/src/pool.rs:58-69 | keeps exactly the contexts that are current and young when the clock is read for them, in order, with both gauges adjusted |
| ConfigPool.FirstUsable | crates/config/src/pool.rs:71-82 | the index found is usable when its turn comes, and none before it was |
| ConfigPool.RetainedIff | crates/config/src/pool.rs:58-69 | expiry keeps exactly the young and current contexts, each once and in order |
| PoolRuns.RunInv | crates/config/src/lib.rs:116-181 | the invariant holds in every state of every run |
| PoolSafety.GaugesCorrect | crates/config/src/pool.rs:58-111 | the spare gauge is the pool's length and within its limit, and the live gauge counts pooled and handed-out contexts |
| PoolSafety.GivenFresh | crates/config/src/pool.rs:71-82 | what the pool gives was sampled after the last bump, is young enough and within its uses |
| PoolSafety.NotAfterBump | crates/config/src/epoch.rs:142-149 | a context whose epoch was sampled before a bump is never given by the pool after it |
| PoolSafety.NotReadBeforeBump | crates/config/src/epoch.rs:142-149 | so neither is a context whose policy was read before the bump |
| PoolSafety.BegunBeforeBump | crates/config/src/lib.rs:121-124 | the sampling of the epoch is what counts: a load that only began before the bump is still given |
| PoolSafety.UsesBounded | crates/config/src/pool.rs:93-97 | no context comes into the hands of callers more often than the limit says |
| PoolSafety.NoUsesAllowed | crates/config/src/lib.rs:173-180 | a limit of zero is exceeded by the first load |
| PoolCalls.GetIsSteps | crates/config/src/pool.rs:71-82 | a call of `get`, with the clock and the epoch moving while it runs, is a series of ticks, bumps and skips of the state machine, with one hand-out at the end exactly when it gives a context |
| PoolCalls.Get | crates/config/src/pool.rs:71-82 | the class and the state machine stay in step over `get` |
| PoolCalls.Put | crates/config/src/pool.rs:84-111 | the class and the state machine stay in step over `put`, which is the step of a return |
| PoolCalls.Expire | crates/config/src/pool.rs:58-69 | the class and the state machine stay in step over `expire`, which is one step |
| MxGroups.FindPref | crates/dns-resolver/src/lib.rs:870-871 | finds the group of a preference if there is one |
| MxGroups.GroupRecords | crates/dns-resolver/src/lib.rs:863-881 | every preference has exactly one group, with all its hosts in order |
| MxGroups.SortGroupsAscending | crates/dns-resolver/src/lib.rs:883-884 | sorting groups with distinct preferences orders them strictly |
| MxGroups.SortHostsSorted | crates/dns-resolver/src/lib.rs:886-890 | the hosts of a group end up in byte order |
| MxGroups.SortEachGroup | crates/dns-resolver/src/lib.rs:886-890 | sorting each group's hosts loses none |
| MxGroups.LookupMx | crates/dns-resolver/src/lib.rs:832-893 | fails exactly for a missing domain; otherwise gives one sorted group of lower-case hosts per preference, or the lower-case domain itself when there are no records |
| MxPlan.PortRoundTrip | crates/dns-resolver/src/lib.rs:412-423 | a port added to a host without colons is read back |
| MxPlan.Flatten | crates/dns-resolver/src/lib.rs:701-717 | each group becomes one entry of the ordered map, with the port added, and none is lost |
| MxPlan.AddHost | crates/dns-resolver/src/lib.rs:767-804 | a host adds its literal address, the addresses found, or nothing |
| MxPlan.ResolveAddresses | crates/dns-resolver/src/lib.rs:755-814 | a null MX anywhere gives no list; otherwise the list is the shuffled levels, highest preference value first |
| MxLaws.PopOrder | crates/dns-resolver/src/lib.rs:751-758 | popping from the end visits preferences in non-decreasing order |
| MxLaws.VisitsTotal | crates/dns-resolver/src/lib.rs:806-811 | no shuffle within a level loses or duplicates an address |
| MxLaws.GroupsTotal | crates/dns-resolver/src/lib.rs:863-881 | the groups together contribute exactly what the records do |
| MxLaws.PlanConserves | crates/dns-resolver/src/lib.rs:755-893 | the plan holds each address of each record's host exactly once |
| MxLaws.NullIff | crates/dns-resolver/src/lib.rs:761-765 | the plan is a null MX exactly when some record is one and no port was asked for |
| MxLaws.NullHidden | crates/dns-resolver/src/lib.rs:761-765 | a null MX with port 25 behind it is not recognised as one |
| MxLaws.ConnectionPlan | crates/dns-resolver/src/lib.rs:701-893 | from answer to plan: fails exactly for a missing domain, null MX exactly as above, otherwise ordered and conserving |

## Left out

- DkimRun.Sign: the errors of computing an expiry and of a key that does not fit the algorithm are not modelled, only those of the signing library.
- CidrTrie.FindItemSound: says nothing of the network `any`, which has no first address, so that looking it up panics.
- CidrTrie.FindItemCovered: nothing of `any` either.
- DkimTwoPass.CutText: takes for granted that the raw signature occurs once in its header; DkimExact and DkimLong do without.
- DkimTwoPass.SameTextIff: the same; DkimExact.SameTextExactly has the exact condition for every base64 signature.
- DkimAgree.InputsAgreeIff: the same; DkimAgree.InputsSameIff has no such condition.
- DkimVerified.HashedBytesAgreeIff: the same; DkimVerified.HashedBytesSameIff and DkimVerified.HashedBytesAgreeExactly do without.
- DkimVerified.SignedVerifiesIff: the same; DkimVerified.SignedVerifiesExactly and DkimStatic.SignedVerifiesByLength do without.
- DkimLong.LongNotBefore: values of 75 characters or more with fewer dots, which no domain name has, are covered by DkimExact.SameTextExactly.
- DkimLong.LongSameTextIff: the same.
- DkimStatic.SameTextByLength: covers keys whose signatures have 75 characters or more, as those of Ed25519 and of RSA from 448 bits on do; DkimExact.SameTextExactly covers the others.
- DkimStatic.SignedVerifiesByLength: the same; DkimVerified.SignedVerifiesExactly covers the others.
- ArcSeal.NewAmsVerifies: covers keys of the same sizes.
- ArcSeal.NewSealVerifies: the same.
- ArcExtend.SealExtends: the same, and states one direction; ArcExtend.SealPassesIff has both.
- ArcExtend.SealPassesIff: covers keys of the same sizes.
- ArcRounds.SealAdds: the same, and starts from a message no AMS of which lists more ARC headers than there are; ArcRounds.SealRunExactly covers the others.
- ArcRounds.SealRun: the same.
- ArcRounds.SealRunIff: the same.
- ArcRounds.SealRunExactly: covers keys of the same sizes.
- CounterSeries.CounterSeries.Delta: follows builds without overflow checks; with them, the most negative value panics.
- CounterSeries.CounterSeries.Total: follows builds without overflow checks; with them, a total beyond 64 bits panics.
- CounterSeries.CounterSeries.TotalOver: the same holds for partial sums.
- CounterRuns.RunAccounted: covers increments that together fit in 64 bits; beyond that buckets saturate or totals wrap, call by call.
- CounterRuns.Replay: the same.
- CounterRuns.SumBounds: covers increments and queries whose increments together fit in 64 bits; runs with `delta` and `observe` have only their single-call laws.
- RSA, Ed25519, SHA and base64 themselves, loading keys and fetching them from DNS: foreign code, taken as arbitrary functions.
- Parsing a message into headers and body, and parsing CIDR text: headers are pairs of name and raw value, networks are bit strings.
- Text outside ASCII: trimming and lower-casing follow ASCII only.
- Timestamps and expiry arithmetic: the values of `t=` and `x=` are texts given to the signer.
- The checks of a DKIM-Signature header beyond those shared with ARC, and the authentication results built from verdicts: single decisions and formatting.
- Changing trie nodes in place for CIDR maps: nodes are owned by their parent and nothing else refers to them, so they are values here; the domain map's nodes are heap objects.
- `From<[T; N]>` for CIDR maps and sets, which sorts before inserting: the order of insertion is covered for sets by CidrSet.OrderIrrelevant.
- Limits of the context pool that change while it runs, wrap-around of the epoch counter, and the order in which the watch channel delivers epochs.
- Resolvers, caches, timeouts and semaphores of the DNS crate: lookups are arbitrary functions and shuffles arbitrary permutations.
- Lua bindings, serialisation formats, metrics other than the two pool gauges, logging and error texts.
