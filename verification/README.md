# A verified model of the sidlc interface compiler

`sidlc` compiles an interface language (SIDL) to a hashed binary artifact (SIF), extends artifacts
with further ABI revisions, decompiles them back to SIDL, and generates the C stubs with which
clients call servers. This project models that in Dafny and proves what the program is for.
`dafny verify dfyconfig.toml` checks everything.

The model has two layers. Functions say what the formats, the grammar, the printed text and the
emitted stubs are; theorems are about these functions. Objects and loops (classes and methods) follow
the C++ code, which updates streams, buffers, tokens and tables in place; each method is proved to
compute what the functions say. A C++ `char` and an octet are one type. The formats, the grammar, the
texts and the constants are each stated a second time, with their literals and in another form, and both
statements are proved to agree on all inputs.

| file | contents |
|---|---|
| Octets, Remainders, Ast | octets, machine integers, results; quotients and remainders; the syntax tree |
| SifFormat, SifLaws, SifArtifact, SifTheorems | the byte format, the laws of every node kind, whole artifacts, the hash chain, and the main theorems about them |
| SifWriting, SifReading, SifFiles | the writer and reader objects, the revision hash, `sif_write` and `sif_read` |
| ReferenceOctets, ReaderVerdicts | the octets of every node kind written out, and what the reader makes of octets no writer emits |
| BlockHash, Sha256, BitLaws, Sha1, NameUuids, UuidText | FIPS 180-4 padding and hashing, the two streaming classes, name-based UUIDs, UUID text |
| RoundConstants, KnownBlock, KnownSha256, KnownSha1 | where the constants of the hashes come from, the padding, and known digests |
| Lexing, Scanning, Parsing, DescentParser | tokens and the lexer object, the recursive-descent functions and the parser object |
| LexicalGrammar, Numerals, Grammar, ParserGrammar | a declarative lexical grammar, numerals by places, a declarative grammar, and the proofs that lexer and parser accept and yield exactly that |
| Printing, ReferenceText, Decompiling, TextRoundTrip | the decompiler's text, the same as lines, the decompiler's loops, and lexing and parsing as its inverses |
| Compiling, Metadata, Commands, Reproduction, Histories | `compile`, `compile -b`, `decompile`; what their metadata must be; reproduction of artifacts; runs of the commands |
| ParserLocality, SplitCompile, SplitExactly, ManyFunctions | what a parse depends on; one compilation against several extensions, and where they part |
| Rebuilding, ExtensionChecks, ForeignHeaders | artifacts rebuilt from printed text; the checks on an extension and what they let through |
| MachineWords, CallPlans, CallSemantics, DeliveryExactly, BuiltinCalls | C integer conversions, the two stub generators, a semantics of their stubs, end-to-end delivery and when it fails, calls with the built-in types |
| DispatchTable, BitfieldMasks | vtable, dispatcher and id spans; bitfield masks |

The encoders and printers are in continuation form: `PutX(v, k)` and `PrintX(v, k)` are the octets or
the text of `v` followed by `k`. The readers `GetX` and parsers `ParseX` return the value and what is
left. Theorems about artifacts take the two hash functions as a parameter (`Crypto`); the commands are
proved for `NameUuids.LINKED`, SHA-256 and the name generator. No property of a hash function is
assumed: where cryptographic strength would be needed, the theorem exhibits the colliding messages.

What the model found:

- Decompiling and recompiling reproduces an accepted artifact exactly when its const flags are 0 or 1
  and its tree is one SIDL can express (`Reproduction.Reproduces`). Every artifact with fewer
  than 2^32 functions that the compiler itself reaches is one; an artifact made by hand need not be.
- The annotation keys that decide whether an extension matches its base are injective on annotations
  from the lexer. On a hand-made artifact, whose literals may hold quotes, they need not be: `compile -b`
  then takes a source with another header, exactly when the base is ambiguous in a way that can be
  computed from it (`ForeignHeaders.ForeignHeaderIffMisleads`, `ForeignHeaders.ForeignHeaderIsAccepted`).
- UUID text ignores hyphens everywhere but outside braces, where one makes the text invalid, and one pair
  of braces, where a second one makes it invalid (`UuidText.HyphensIgnored`, `UuidText.BracesIgnored`).
- From 2^32 functions on, the reader's id counter has stopped and the parser's has wrapped, so a source cut
  there compiles to other ids than the whole (`SplitExactly.SplitExactly`, `ManyFunctions.CutMatters`).
- The two stub generators test for scalar parameters differently. They agree exactly when every
  parameter the client passes in a slot has a known size on the server
  (`CallSemantics.ClassificationAgreesIffSettled`). By-value structs, `opaque`, and an enum over a
  bitfield declared in the same revision are outside that condition; the last is worked out in
  `DispatchTable.EnumOverBitfieldIsRefused`, and `DispatchTable.ScalarsAreSettled` says which
  declarations are safe.
- The sha1 class writes a 32-bit bit count, so it computes SHA-1 below 2^29 octets and pads
  differently from there on (`Sha1.ShortPaddingIsStandard`).
- A mask of an empty bitfield field behind 64 used bits is a shift by 64, which C does not define
  (`BitfieldMasks.MaskIsConstant`, `BitfieldMasks.ShiftIsUndefined`).

## Main results

1. Round trips of the artifact: `SifTheorems.ReadAfterWrite`, and in the other direction, with the exact
   condition, `SifTheorems.WriteAfterRead`.
2. No accepted artifact is a prefix of another: `SifTheorems.PrefixFree`.
3. The last stored hash binds identity and history: `SifTheorems.HashChainBinding`.
4. Decompiling and compiling gives an artifact back, with the exact condition and over all runs:
   `Reproduction.Reproduces`, `Histories.ReachableReproduces`.
5. What every run of `compile` and `compile -b` keeps, and that it only appends: `Histories.RunInvariant`,
   `Histories.RunHistory`.
6. One compilation against any sequence of extensions, with the exact condition for the same octets:
   `SplitExactly.SplitExactly`, `SplitExactly.SplitInvariance`, `Rebuilding.RebuiltInTwoSteps`.
7. Which headers an extension is accepted under: `ExtensionChecks.ValidatesEqualHeaders`,
   `ExtensionChecks.ValidationIsExactIff`, `ForeignHeaders.ForeignHeaderIffMisleads`.
8. The commands over objects, streams and loops are the functions these theorems are about:
   `SifFiles.WriteFile`, `SifFiles.ReadFile`, `Scanning.Lexer.NextToken`, `DescentParser.Parser.Parse`,
   `Decompiling.CommandDecompile`, `Commands.CommandCompile`.
9. Client and server classify parameters alike exactly when sizes are settled, which scalars are:
   `CallSemantics.ClassificationAgreesIffSettled`, `DispatchTable.ScalarsAreSettled`.
10. Arguments are delivered exactly when sizes are settled, and results come back: `CallSemantics.Delivery`,
    `DeliveryExactly.DeliveryIffSettled`, `CallSemantics.CallIsTransparent`.
11. The dispatcher calls the vtable slot of its id, over all runs: `DispatchTable.DispatchCallsItsSlot`,
    `DispatchTable.ReachableIsDense`, `DispatchTable.VtableOnlyGrows`.
12. The streaming hashes are FIPS 180-4: `Sha256.Hasher.Finish`, `Sha1.Hasher.GetDigestBytes` with
    `Sha1.ShortPaddingIsStandard`, and `NameUuids.NameUuidIsVersion5`.
13. UUID text: `UuidText.UuidRoundTrip`, `UuidText.FromString`, `UuidText.IsValidUuid`,
    `UuidText.HyphensIgnored`, `UuidText.BracesIgnored`.
14. Bitfield masks partition the used bits: `BitfieldMasks.MasksDisjoint`, `BitfieldMasks.MasksCover`.
15. The lexer reads exactly the lexical grammar and the parser exactly the grammar, both declared apart from
    them: `LexicalGrammar.LexemeIsRead` with `LexicalGrammar.LexemeInFront`, `ParserGrammar.ParserIsGrammar`,
    `Numerals.NumberIsRead`, `Metadata.NormalisedExactly`, `Metadata.FirstErrorExactly`.
16. Tables and formats are fixed by definitions apart from the code: `RoundConstants.ConstantsAreCubeRoots`,
    `KnownSha256.DigestOfAbc`, `ReferenceOctets.ArtifactOctets`, `ReaderVerdicts.TreeVerdict`,
    `ReferenceText.InterfaceIs`, `UuidText.CaseIgnored`.
17. Every call with built-in types is delivered on x86_64: `BuiltinCalls.ArgumentSlots`,
    `BuiltinCalls.BuiltinCallsAreDelivered`.

The other members of the table are the steps to these.

## Model

| member | source | states |
|---|---|---|
| `SifLaws.IntegerLaws` | lang/sif.cc:211-223 | 32- and 64-bit integers: reading back an encoding in front of any octets yields the value and leaves those octets; a canonical read consumed exactly the encoding of its value, and that value fits the 32-bit lengths |
| `SifLaws.StringLaws` | lang/sif.cc:238-250 | length-prefixed strings padded with zeros to four octets: reading back an encoding in front of any octets yields the value and leaves those octets; a canonical read consumed exactly the encoding of its value, and that value fits the 32-bit lengths |
| `SifLaws.ExpressionLaws` | lang/sif.cc:376-422 | expressions: reading back an encoding in front of any octets yields the value and leaves those octets; a canonical read consumed exactly the encoding of its value, and that value fits the 32-bit lengths |
| `SifLaws.AnnotationsLaws` | lang/sif.cc:338-374 | annotation lists: reading back an encoding in front of any octets yields the value and leaves those octets; a canonical read consumed exactly the encoding of its value, and that value fits the 32-bit lengths |
| `SifLaws.TypeLaws` | lang/sif.cc:424-467 | nested types with their const flags: reading back an encoding in front of any octets yields the value and leaves those octets; a canonical read consumed exactly the encoding of its value, and that value fits the 32-bit lengths |
| `SifLaws.ParameterLaws` | lang/sif.cc:469-493 | parameters: reading back an encoding in front of any octets yields the value and leaves those octets; a canonical read consumed exactly the encoding of its value, and that value fits the 32-bit lengths |
| `SifLaws.FunctionLaws` | lang/sif.cc:495-524 | functions: reading back an encoding in front of any octets yields the value and leaves those octets; a canonical read consumed exactly the encoding of its value, and that value fits the 32-bit lengths |
| `SifLaws.StructLaws` | lang/sif.cc:526-557 | structs: reading back an encoding in front of any octets yields the value and leaves those octets; a canonical read consumed exactly the encoding of its value, and that value fits the 32-bit lengths |
| `SifLaws.BitfieldLaws` | lang/sif.cc:559-592 | bitfields: reading back an encoding in front of any octets yields the value and leaves those octets; a canonical read consumed exactly the encoding of its value, and that value fits the 32-bit lengths |
| `SifLaws.EnumLaws` | lang/sif.cc:594-629 | enums: reading back an encoding in front of any octets yields the value and leaves those octets; a canonical read consumed exactly the encoding of its value, and that value fits the 32-bit lengths |
| `SifLaws.IntegerLocal` | lang/sif.cc:278-294 | 32- and 64-bit integers: unless the input ran out, octets appended to it change nothing but what is left over |
| `SifLaws.StringLocal` | lang/sif.cc:314-329 | strings: unless the input ran out, octets appended to it change nothing but what is left over |
| `SifLaws.ExpressionLocal` | lang/sif.cc:399-422 | expressions: unless the input ran out, octets appended to it change nothing but what is left over |
| `SifLaws.AnnotationsLocal` | lang/sif.cc:353-374 | annotation lists: unless the input ran out, octets appended to it change nothing but what is left over |
| `SifLaws.TypeLocal` | lang/sif.cc:444-467 | types: unless the input ran out, octets appended to it change nothing but what is left over |
| `SifLaws.ParameterLocal` | lang/sif.cc:477-493 | parameters: unless the input ran out, octets appended to it change nothing but what is left over |
| `SifLaws.FunctionLocal` | lang/sif.cc:506-524 | functions: unless the input ran out, octets appended to it change nothing but what is left over |
| `SifLaws.StructLocal` | lang/sif.cc:538-557 | structs: unless the input ran out, octets appended to it change nothing but what is left over |
| `SifLaws.BitfieldLocal` | lang/sif.cc:572-592 | bitfields: unless the input ran out, octets appended to it change nothing but what is left over |
| `SifLaws.EnumLocal` | lang/sif.cc:608-629 | enums: unless the input ran out, octets appended to it change nothing but what is left over |
| `SifLaws.BodyLocal` | lang/sif.cc:735-756 | the declarations of a revision tree: unless the input ran out, octets appended to it change nothing but what is left over |
| `SifLaws.BodyRoundTrip` | lang/sif.cc:640-659 | the declarations of a revision tree read back from their encoding, whatever follows |
| `SifLaws.BodySound` | lang/sif.cc:735-756 | a canonical read of the declarations consumed exactly the octets the writer emits for them |
| `SifLaws.BodyFits` | lang/sif.cc:735-756 | every revision that can be read can be written: all its lengths and counts are below 2^32 |
| `SifTheorems.TreeRoundTrip` | lang/sif.cc:631-764 | a revision tree with its number, link and hash passes all checks of the reader and reads back |
| `SifTheorems.TreeSound` | lang/sif.cc:716-764 | a tree the reader accepts has the expected number and the expected hash is the recomputed one |
| `SifTheorems.TreeLocal` | lang/sif.cc:716-764 | the verdict on a tree does not depend on octets behind it |
| `SifTheorems.TreesRoundTrip` | lang/sif.cc:1022-1027 | a chain of contiguous trees linked by their hash table reads back |
| `SifTheorems.TreesSound` | lang/sif.cc:1068-1075 | an accepted chain is contiguous and its table is the hash table of its revisions |
| `SifTheorems.HeaderRoundTrip` | lang/sif.cc:1012-1016 | magic, version and identity read back |
| `SifTheorems.HeaderSound` | lang/sif.cc:1030-1049 | an accepted header is the writer's header of the interface read from it |
| `SifTheorems.ArtifactRoundTrip` | lang/sif.cc:982-1082 | a whole artifact in front of any octets reads back and leaves those octets |
| `SifTheorems.ArtifactSound` | lang/sif.cc:1030-1082 | whatever the reader accepts is contiguous and writable, the hash table that stands in the octets is the one recomputed from the revisions, and, when its const flags are 0 or 1, the octets are the writer's output |
| `SifTheorems.StoredIsRecomputed` | lang/sif.cc:1054-1075 | the hash table stored in an accepted artifact has one entry a revision, each the recomputed hash |
| `SifTheorems.ReadAfterWrite` | lang/sif.cc:982-1082 | for contiguous revisions, reading what was written gives the base revisions followed by the extension revisions, under the same header |
| `SifTheorems.WriteAfterRead` | lang/sif.cc:982-1082 | every accepted artifact can be rewritten and reads back the same; the rewriting is the same octets if and only if every const flag is 0 or 1 |
| `SifTheorems.PrefixFree` | lang/sif.cc:1030-1082 | cutting an accepted artifact anywhere gives an end-of-file error, and appending anything to one gives a trailing-data error |
| `SifTheorems.PreimageInjective` | lang/sif.cc:696-714 | the octets hashed for a revision determine the interface UUID, the whole revision tree and the previous hash |
| `SifTheorems.HashTableAt` | lang/sif.cc:1003-1010 | entry j of the table is the hash of revision j linked to entry j-1 |
| `SifTheorems.BindingDown` | lang/sif.cc:696-764 | equal preimages at one index force equal histories up to it, or exhibit a collision |
| `SifTheorems.HashChainBinding` | lang/sif.cc:696-764 | two accepted artifacts whose stored hash tables end in the same hash have the same interface UUID and the same revisions, or two different hashed messages with the same hash are exhibited |
| `SifWriting.BinaryWriter.WriteU8` | lang/sif.cc:187-209 | appends one octet to the bytes or feeds it to the hash |
| `SifWriting.BinaryWriter.WriteBytes` | lang/sif.cc:225-236 | appends a block to the bytes or feeds it to the hash |
| `SifWriting.BinaryWriter.WriteLE` | lang/sif.cc:211-223 | appends the octets of a number, least significant first |
| `SifWriting.BinaryWriter.WriteU32` | lang/sif.cc:211-216 | appends a 32-bit number |
| `SifWriting.BinaryWriter.WriteU64` | lang/sif.cc:218-223 | appends a 64-bit number |
| `SifWriting.BinaryWriter.WriteString` | lang/sif.cc:238-250 | fails exactly above 2^32-1 octets, else appends length, octets and zero padding |
| `SifWriting.BinaryWriter.WriteCount` | lang/sif.cc:252-259 | fails exactly above 2^32-1 elements, else appends the count |
| `SifWriting.BinaryWriter.WriteExpression` | lang/sif.cc:376-397 | appends the encoding of an expression or fails exactly when a length or count in it does not fit 32 bits |
| `SifWriting.BinaryWriter.WriteType` | lang/sif.cc:424-442 | appends the encoding of a nested type or fails exactly when a length or count in it does not fit 32 bits |
| `SifWriting.BinaryWriter.WriteAnnotations` | lang/sif.cc:338-351 | appends the encoding of an annotation list or fails exactly when a length or count in it does not fit 32 bits |
| `SifWriting.BinaryWriter.WriteParameter` | lang/sif.cc:469-475 | appends the encoding of a parameter or fails exactly when a length or count in it does not fit 32 bits |
| `SifWriting.BinaryWriter.WriteFunction` | lang/sif.cc:495-504 | appends the encoding of a function or fails exactly when a length or count in it does not fit 32 bits |
| `SifWriting.BinaryWriter.WriteStruct` | lang/sif.cc:526-536 | appends the encoding of a struct or fails exactly when a length or count in it does not fit 32 bits |
| `SifWriting.BinaryWriter.WriteBitfield` | lang/sif.cc:559-570 | appends the encoding of a bitfield or fails exactly when a length or count in it does not fit 32 bits |
| `SifWriting.BinaryWriter.WriteEnum` | lang/sif.cc:594-606 | appends the encoding of an enum or fails exactly when a length or count in it does not fit 32 bits |
| `SifWriting.BinaryWriter.WriteRevisionTree` | lang/sif.cc:631-660 | appends the encoding of a revision tree or fails exactly when a length or count in it does not fit 32 bits |
| `SifReading.BinaryReader.ReadU8` | lang/sif.cc:269-276 | takes one octet or reports the end |
| `SifReading.BinaryReader.ReadLE` | lang/sif.cc:278-294 | the loop that shifts octets into a number takes exactly what the format says |
| `SifReading.BinaryReader.ReadU32` | lang/sif.cc:278-285 | takes a 32-bit number |
| `SifReading.BinaryReader.ReadU64` | lang/sif.cc:287-294 | takes a 64-bit number |
| `SifReading.BinaryReader.ReadHash` | lang/sif.cc:296-303 | takes a 32-octet hash |
| `SifReading.BinaryReader.ReadUuid` | lang/sif.cc:305-312 | takes a 16-octet UUID |
| `SifReading.BinaryReader.ReadString` | lang/sif.cc:314-329 | takes a string and insists on zero padding |
| `SifReading.BinaryReader.ReadExpression` | lang/sif.cc:399-422 | agrees with the format on every input, value, error and rest of the stream |
| `SifReading.BinaryReader.ReadType` | lang/sif.cc:444-467 | agrees with the format for nested types |
| `SifReading.BinaryReader.ReadAnnotations` | lang/sif.cc:353-374 | agrees with the format for an annotation list |
| `SifReading.BinaryReader.ReadParameter` | lang/sif.cc:477-493 | agrees with the format for a parameter |
| `SifReading.BinaryReader.ReadFunction` | lang/sif.cc:506-524 | agrees with the format for a function; `current_funcid` becomes the maximum of itself and the id's successor |
| `SifReading.BinaryReader.ReadFunctions` | lang/sif.cc:753-756 | agrees with the format for the function list, with the counter after all of them |
| `SifReading.BinaryReader.ReadStruct` | lang/sif.cc:538-557 | agrees with the format for a struct |
| `SifReading.BinaryReader.ReadBitfield` | lang/sif.cc:572-592 | agrees with the format for a bitfield |
| `SifReading.BinaryReader.ReadEnum` | lang/sif.cc:608-629 | agrees with the format for an enum |
| `SifReading.BinaryReader.ReadBody` | lang/sif.cc:735-756 | agrees with the format for all declarations of a revision |
| `SifFiles.ComputeRevisionHash` | lang/sif.cc:696-714 | streaming tag, UUID and tree through the SHA-256 object gives SHA-256 of the revision's preimage, with the source's errors |
| `SifFiles.HashRevisions` | lang/sif.cc:1000-1010 | the loop over the revisions builds the linked hash table, or stops with the error of the first revision that cannot be hashed |
| `SifFiles.WriteInterfaceIdentity` | lang/sif.cc:662-676 | appends the identity, or reports the first missing or oversized part |
| `SifFiles.WriteTrees` | lang/sif.cc:1022-1027 | appends the chain of trees, each with the hash of the one before |
| `SifFiles.WriteFile` | lang/sif.cc:982-1028 | `sif_write` over its objects yields exactly the artifact octets, or the source's error, for every interface and list of extensions |
| `SifFiles.ReadRevisionTree` | lang/sif.cc:716-764 | agrees with the format on number, link, declarations and recomputed hash |
| `SifFiles.ReadTrees` | lang/sif.cc:1068-1075 | the loop over the trees agrees with the chained reader, and the counter is the one of all functions read |
| `SifFiles.ReadHeader` | lang/sif.cc:1034-1049 | magic, version and identity are read into the interface node, or the source's error is reported |
| `SifFiles.ReadFile` | lang/sif.cc:1030-1082 | `sif_read` over its objects accepts and rejects exactly as the format says, with the same interface and the same error |
| `Sha256.Hasher.Transform` | lang/sif.cc:57-127 | one block: the state becomes the FIPS 180-4 section 6.2.2 compression of the old state and the buffer |
| `Sha256.Hasher.Update` | lang/sif.cc:130-146 | the absorbed message grows by exactly the data, however it is cut into blocks |
| `Sha256.Hasher.PutMarker` | lang/sif.cc:148-162 | appends the marker octet and the least number of zeros that leaves eight octets, in one or two blocks |
| `Sha256.Hasher.PutLength` | lang/sif.cc:164-166 | appends the bit count, most significant octet first |
| `Sha256.Hasher.Finish` | lang/sif.cc:148-178 | returns SHA-256 (sections 5.1.1 and 6.2 of FIPS 180-4) of everything passed to `update`, for any sequence of updates |
| `BlockHash.PaddedParts` | lang/sif.cc:148-166 | a 64-bit bit counter that wraps still gives the standard padding |
| `BlockHash.AbsorbAppend` | lang/sif.cc:130-146 | absorbing whole blocks in two parts is absorbing them at once |
| `Sha1.Hasher.ProcessBlock` | include/uuid.h:235-288 | one block: the digest words become the FIPS 180-4 section 6.1.2 compression of the old words and the block |
| `Sha1.Hasher.ProcessByte` | include/uuid.h:143-152 | the processed message grows by the octet; a full block is compressed at once |
| `Sha1.Hasher.ProcessBytes` | include/uuid.h:154-169 | the processed message grows by the data |
| `Sha1.Hasher.Reset` | include/uuid.h:132-141 | the object starts over with the empty message |
| `Sha1.Hasher.PutMarker` | include/uuid.h:171-187 | marker octet and zeros to block position 56, through a second block exactly when the first has no room |
| `Sha1.Hasher.PutLength` | include/uuid.h:188-195 | four zero octets and the low 32 bits of the bit count |
| `Sha1.Hasher.GetDigestBytes` | include/uuid.h:171-232 | the octets of the digest of the class, which is SHA-1 whenever the bit count has no high 32 bits |
| `Sha1.ShortPaddingIsStandard` | include/uuid.h:171-195 | the padding of the class is that of FIPS 180-4 section 5.1.1 if and only if the bit count modulo 2^64 is below 2^32; below 2^61 octets that means fewer than 2^29 octets |
| `BitLaws.RoundLaws` | include/uuid.h:125-128 | the class's rotations and round functions, written with other operators, are those of FIPS 180-4 |
| `NameUuids.NameUuidIsVersion5` | include/uuid.h:813-827 | the name generator yields a version 5 UUID of the RFC variant; its other 122 bits are those of the hash of namespace and name, which is SHA-1 below the size limit (section 4.3 of RFC 4122) |
| `NameUuids.NameGenerator.Generate` | include/uuid.h:781-827 | reset, hashing of namespace and name, and stamping give that UUID, on every call of one generator |
| `UuidText.IsValidUuid` | include/uuid.h:459-500 | holds exactly when the text denotes a UUID |
| `UuidText.FromString` | include/uuid.h:503-547 | returns the UUID the text denotes, or none |
| `UuidText.ToString` | include/uuid.h:586-602 | writes the canonical 8-4-4-4-12 form |
| `UuidText.UuidRoundTrip` | include/uuid.h:503-602 | parsing the canonical form of any UUID gives that UUID |
| `UuidText.HyphensIgnored` | include/uuid.h:514-521 | a hyphen inserted or removed anywhere leaves the denoted value as it is, if and only if it does not stand in front of the opening brace or behind the closing one of a text that denotes a UUID |
| `UuidText.HyphenOutsideBraces` | include/uuid.h:514-521 | the exception is met: the canonical form of any UUID in braces is accepted, and rejected with one hyphen outside the braces |
| `UuidText.BracesIgnored` | include/uuid.h:514-521 | matching braces around a text leave what it denotes as it is, if and only if it is not a text in braces that denotes a UUID; around a text that starts with a brace they are always rejected |
| `UuidText.DoubleBraces` | include/uuid.h:514-521 | the exception is met: the canonical form of any UUID is accepted in one pair of braces and rejected in two |
| `UuidText.RejectsUnclosed` | include/uuid.h:516-517 | an opening brace without a closing one is rejected |
| `UuidText.AcceptedCharacters` | include/uuid.h:503-547 | only hex digits and hyphens are accepted, with braces around them or not |
| `Scanning.Lexer.Advance` | lang/lexer.cc:5-14 | one character further, with line and column kept equal to those of the position |
| `Scanning.Lexer.SkipUnmeaningful` | lang/lexer.cc:16-43 | stops exactly behind white space, both kinds of comments and lone slashes |
| `Scanning.Lexer.SkipBlockComment` | lang/lexer.cc:29-37 | stops behind the first end of comment, or at the end of the source |
| `Scanning.Lexer.NextNumber` | lang/lexer.cc:99-142 | number tokens, with the radix prefix dropped from the text as the source drops it |
| `Scanning.Lexer.NextWord` | lang/lexer.cc:62-97 | the longest word, as keyword or identifier |
| `Scanning.Lexer.NextString` | lang/lexer.cc:144-153 | a string literal with its quotes |
| `Scanning.Lexer.NextToken` | lang/lexer.cc:45-183 | delivers the next token of the token list, moves strictly forward for every token but end of file, and reports line and start column of the true positions |
| `DescentParser.Parser.Consume` | lang/parser.cc:14-25 | takes the expected token or reports an error |
| `DescentParser.Parser.ParseExpression` | lang/parser.cc:85-114 | agrees with the grammar on every token list |
| `DescentParser.Parser.ParseArguments` | lang/parser.cc:128-138 | the argument loop agrees with the grammar and terminates |
| `DescentParser.Parser.ParseAnnotation` | lang/parser.cc:116-143 | agrees with the grammar |
| `DescentParser.Parser.ParseAnnotations` | lang/parser.cc:51-53 | the annotation loop agrees with the grammar |
| `DescentParser.Parser.ParseType` | lang/parser.cc:145-183 | agrees with the grammar for nested types |
| `DescentParser.Parser.ParseParameter` | lang/parser.cc:185-217 | agrees with the grammar |
| `DescentParser.Parser.ParseStruct` | lang/parser.cc:219-245 | agrees with the grammar |
| `DescentParser.Parser.ParseBitfield` | lang/parser.cc:252-288 | agrees with the grammar |
| `DescentParser.Parser.ParseEnum` | lang/parser.cc:295-337 | agrees with the grammar |
| `DescentParser.Parser.ParseFunction` | lang/parser.cc:346-372 | agrees with the grammar; the function takes the owner's counter, which then advances modulo 2^32 |
| `DescentParser.Parser.ParseItems` | lang/parser.cc:387-421 | the loop over the items attaches pending annotations to the next declaration, drops left-over ones, and agrees with the grammar |
| `DescentParser.Parser.ParseAbiversion` | lang/parser.cc:374-423 | agrees with the grammar, id counter included |
| `DescentParser.Parser.ParseRevisions` | lang/parser.cc:27-75 | the revision loop insists on the next number modulo 2^64 and agrees with the grammar |
| `DescentParser.Parser.ParseHeader` | lang/parser.cc:49-61 | agrees with the grammar up to the opening brace |
| `DescentParser.Parser.Parse` | lang/parser.cc:43-82 | the whole source: the node built is the interface of the grammar, or the error is the grammar's |
| `Parsing.ItemsPrintable` | lang/parser.cc:374-423 | every revision that parses can be printed: identifiers, quoted literals, no revision annotations |
| `Parsing.RevisionsPrintable` | lang/parser.cc:63-73 | all revisions of a source that parses can be printed |
| `ParserLocality.RevisionLocal` | lang/parser.cc:374-423 | a parsed revision depends on no token behind its closing brace |
| `ParserLocality.HeaderLocal` | lang/parser.cc:49-61 | a parsed header depends on no token behind its opening brace |
| `TextRoundTrip.ExpressionText` | lang/sif.cc:778-796 | lexing and parsing the printed text of an expression in front of any text gives it back and leaves the tokens of that text |
| `TextRoundTrip.AnnotationsText` | lang/sif.cc:798-817 | lexing and parsing the printed text of annotations on lines of their own in front of any text gives it back and leaves the tokens of that text |
| `TextRoundTrip.InlineAnnotationsText` | lang/sif.cc:901-911 | lexing and parsing the printed text of annotations in front of a parameter in front of any text gives it back and leaves the tokens of that text |
| `TextRoundTrip.TypeText` | lang/sif.cc:819-840 | lexing and parsing the printed text of a nested type in front of any text gives it back and leaves the tokens of that text |
| `TextRoundTrip.ParameterText` | lang/sif.cc:899-926 | lexing and parsing the printed text of a parameter in front of any text gives it back and leaves the tokens of that text |
| `TextRoundTrip.StructText` | lang/sif.cc:842-856 | lexing and parsing the printed text of a struct in front of any text gives it back and leaves the tokens of that text |
| `TextRoundTrip.BitfieldText` | lang/sif.cc:858-873 | lexing and parsing the printed text of a bitfield in front of any text gives it back and leaves the tokens of that text |
| `TextRoundTrip.EnumText` | lang/sif.cc:875-897 | lexing and parsing the printed text of an enum in front of any text gives it back and leaves the tokens of that text |
| `TextRoundTrip.FunctionText` | lang/sif.cc:928-942 | lexing and parsing the printed text of a function in front of any text gives it back and leaves the tokens of that text |
| `TextRoundTrip.RevisionText` | lang/sif.cc:944-978 | lexing and parsing a printed revision, blank lines included, gives the revision back and advances the id counter by its functions |
| `TextRoundTrip.RevisionsText` | lang/sif.cc:1099-1104 | lexing and parsing printed revisions, numbered from any start, gives them back and advances the id counter by their functions |
| `TextRoundTrip.LexDecimal` | lang/sif.cc:778-796 | a number printed in decimal lexes to one number token with those digits |
| `TextRoundTrip.StoullDecimal` | lang/parser.cc:96-114 | `stoull` of a printed 64-bit number is that number |
| `TextRoundTrip.KeywordLaws` | lang/lexer.cc:62-97 | printed keywords lex to their tokens and printed identifiers to identifier tokens |
| `Decompiling.Decompiler.DecompileExpression` | lang/sif.cc:778-796 | writes exactly the text of the expression |
| `Decompiling.Decompiler.DecompileAnnotations` | lang/sif.cc:798-817 | writes exactly the text of the annotations |
| `Decompiling.Decompiler.DecompileType` | lang/sif.cc:819-840 | writes exactly the text of the type |
| `Decompiling.Decompiler.DecompileStruct` | lang/sif.cc:842-856 | writes exactly the text of the struct |
| `Decompiling.Decompiler.DecompileBitfield` | lang/sif.cc:858-873 | writes exactly the text of the bitfield |
| `Decompiling.Decompiler.DecompileEnum` | lang/sif.cc:875-897 | writes exactly the text of the enum, commas between members only |
| `Decompiling.Decompiler.DecompileParameter` | lang/sif.cc:899-926 | writes exactly the text of the parameter |
| `Decompiling.Decompiler.DecompileFunction` | lang/sif.cc:928-942 | writes exactly the text of the function |
| `Decompiling.Decompiler.DecompileAbirevision` | lang/sif.cc:944-978 | writes exactly the text of the revision, blank lines between declarations of all kinds |
| `Decompiling.Decompiler.DecompileInterface` | lang/sif.cc:1084-1107 | writes exactly the text of the interface |
| `Decompiling.CommandDecompile` | core/main.cc:458-492 | from the octets of an artifact to its text, or the reader's error |
| `Commands.NormalizeUuid` | core/main.cc:117-153 | reads the namespace and name of `@uuid` into the node, or reports the source's error |
| `Commands.NormalizePrefix` | core/main.cc:155-172 | reads the text of `@prefix` into the node, or reports the source's error |
| `Commands.NormalizeInterfaceMetadata` | core/main.cc:106-189 | the one pass in place: metadata moved into the node, other annotations kept in order, and the first error in source order |
| `Commands.ParseInterfaceFile` | core/main.cc:191-213 | lexer, parser and normalisation together |
| `Commands.CommandCompile` | core/main.cc:417-448 | `compile` and `compile -b` from the octets of the files to the octets of the artifact, with the error of the first failing step |
| `Reproduction.InterfaceText` | lang/sif.cc:1084-1107 | lexing and parsing a decompiled interface gives its header annotations, revisions and counter back |
| `Reproduction.NormaliseRaw` | core/main.cc:106-189 | normalising the parsed decompilation restores identity, prefix and the other annotations |
| `Reproduction.ParsedSource` | core/main.cc:191-213 | everything a compiled source guarantees: printable header and revisions, contiguous numbers, ids counted on from the given one |
| `Reproduction.CompiledIsExpressible` | core/main.cc:388-456 | what `compile` writes is accepted, has const flags 0 and 1, and can be expressed in SIDL |
| `Reproduction.Reproduces` | core/main.cc:388-492 | decompiling an accepted artifact and compiling the text gives the same octets, hash table included, if and only if its const flags are 0 or 1 and its tree is one SIDL can express |
| `Histories.DenseIds` | lang/parser.cc:369-369 | below 2^32 functions the ids are the declaration positions, and the counter the reader recovers is the parser's |
| `Histories.ExtendedInterface` | core/main.cc:417-448 | an extension reads back as the base's revisions followed by the parsed ones under the base's header |
| `Histories.ExtendKeepsBase` | lang/sif.cc:988-1011 | an extension keeps the base's header, revisions, ids and stored hash table as a prefix |
| `Histories.RunInvariant` | core/main.cc:388-456 | after every run of `compile` and `compile -b` with fewer than 2^32 functions: revisions 0..n-1 without annotations, function ids 0..m-1 in declaration order, counter m, expressible and canonical |
| `Histories.ReachableReproduces` | core/main.cc:388-492 | every artifact such a run reaches is reproduced octet for octet from its decompiled text |
| `Histories.RunHistory` | core/main.cc:417-448 | history is append-only: every earlier artifact of a run is kept by every later one, its stored hash table included |
| `SplitCompile.BlocksThen` | lang/parser.cc:63-73 | parsing revision blocks followed by other tokens is parsing the blocks and then the tokens, whatever the counters |
| `SplitCompile.ItemsIgnoreIds` | lang/parser.cc:346-423 | which tokens a revision takes, and everything in it but the ids, does not depend on its function ids |
| `SplitCompile.NormaliseIgnoresRevisions` | core/main.cc:106-189 | normalisation depends on the header alone |
| `SplitExactly.CountersOf` | lang/sif.cc:522-522 | behind m functions numbered from 0 the reader's counter is the smaller of m and 2^32-1, and the parser's is m modulo 2^32 |
| `SplitExactly.ReadOfWritten` | core/main.cc:388-456 | the artifact of a header and revisions reads back as that header, those revisions and the reader's counter |
| `SplitExactly.ChainStep` | core/main.cc:417-448 | one extension, for any number of functions: it writes the base's revisions followed by the parsed ones, numbered from the reader's counter, or fails when they cannot be parsed or written |
| `SplitExactly.RunWritten` | core/main.cc:417-448 | a run over parts writes the revisions of the parts, each part numbered from the counter recovered before it, or fails |
| `SplitExactly.SplitExactly` | core/main.cc:417-448 | however the revisions of a source are dealt out to a first source and any number of extensions with the same header, the run yields an artifact if and only if the whole source does, and the same octets if and only if at every cut the counters agree (fewer than 2^32 functions before it, or their number is 2^32-1 modulo 2^32) or no function follows |
| `SplitExactly.SplitInvariance` | core/main.cc:417-448 | for artifacts with fewer than 2^32 functions: the run yields this artifact if and only if the whole source does |
| `ManyFunctions.CutMatters` | lang/parser.cc:369-369 | the exception is met: from 2^32 functions on, in two revisions of fewer each, a further function gets another id as an extension than in one source, so both ways succeed with different artifacts |
| `ManyFunctions.CutIsNotReproduced` | core/main.cc:388-492 | the artifact of that run is not reproduced from its decompiled text |
| `Reproduction.PrintedCompiles` | core/main.cc:388-492 | every interface that can be written and expressed is compiled from its printed text, to exactly its artifact |
| `Rebuilding.RebuiltInTwoSteps` | core/main.cc:417-448 | cut anywhere after the first revision, the printed first revisions compiled and extended by the printed others give the same artifact, octet for octet |
| `Rebuilding.RunsExist` | core/main.cc:388-456 | runs that compile and extend exist, for every pair of hash functions |
| `ExtensionChecks.KeyIdentifiesAnnotations` | core/main.cc:284-322 | on annotations that came from the lexer, keys are equal if and only if the annotation lists are |
| `ExtensionChecks.SameKeyIffAmbiguous` | core/main.cc:284-322 | annotations from the lexer share the key of given other annotations if and only if those are ambiguous (not expressible in SIDL, with a key that reads back as a list with this key) and they are what the key reads back as |
| `ExtensionChecks.ValidationIsExactIff` | core/main.cc:324-353 | validation against a base accepts no header but the base's own, for all headers from the lexer, if and only if the base's annotations are not ambiguous |
| `ForeignHeaders.ForeignHeaderIffMisleads` | core/main.cc:417-448 | an accepted artifact can be extended by a source with another header if and only if its annotations are ambiguous and SIDL can express its name, its identity and the annotations its key reads back as |
| `ForeignHeaders.ForeignHeaderIsAccepted` | core/main.cc:417-448 | such an artifact and such a source exist, for every pair of hash functions |
| `ExtensionChecks.ValidatesEqualHeaders` | core/main.cc:324-353 | an extension is accepted if and only if its whole header equals the base's |
| `ExtensionChecks.ExtensionsShareTheHeader` | core/main.cc:432-441 | in a run every further source has exactly the header of the artifact it extends |
| `MachineWords.NarrowRoundTrip` | lang/c_user_source_generator.cc:234-236 | a value of an integer type no wider than a word survives the conversion to `unsigned long`, delivery as `long`, and conversion back |
| `MachineWords.AddressRoundTrip` | lang/c_module_source_generator.cc:136-147 | an address survives a slot |
| `CallPlans.SplitPartitions` | lang/c_user_source_generator.cc:145-166 | every parameter is in exactly one group: OUT parameters in outs, scalars in peeled as long as there is room, all others in ins |
| `CallPlans.SplitIncreasing` | lang/c_user_source_generator.cc:145-166 | each group keeps the order of declaration |
| `CallPlans.ClassifyForClient` | lang/c_user_source_generator.cc:136-166 | the client's loop computes the classification by the client's scalar test |
| `CallPlans.ClassifyForServer` | lang/c_module_source_generator.cc:95-119 | the server's loop computes the classification by the server's scalar test |
| `CallPlans.EmitCallN` | lang/c_user_source_generator.cc:168-294 | staging structures, slots and copies back for a call through memory |
| `CallPlans.EmitClientStub` | lang/c_user_source_generator.cc:93-298 | the client generator emits the stub |
| `CallPlans.WriteDispatchCase` | lang/c_module_source_generator.cc:93-204 | the server generator emits the dispatch case |
| `CallSemantics.ClassificationAgreesIffSettled` | lang/c_module_source_generator.cc:82-119 | client and server classify alike if and only if every parameter that the client passes in a slot has a size of 1 to pointer_size octets on the server |
| `CallSemantics.StructuresAgree` | lang/c_module_source_generator.cc:129-147 | the structures that client and server declare have the same members, types and order |
| `CallSemantics.CaseBounded` | lang/c_module_source_generator.cc:166-192 | every slot the server reads exists: below the number of slots the client fills, and that is at most the length of `args` |
| `CallSemantics.RegisterDelivered` | lang/c_module_source_generator.cc:172-175 | a register argument arrives unchanged |
| `CallSemantics.PeeledDelivered` | lang/c_module_source_generator.cc:182-183 | a peeled argument arrives unchanged from its own slot |
| `CallSemantics.StagedDelivered` | lang/c_module_source_generator.cc:184-192 | an argument staged in memory arrives unchanged, alone or as a structure member, pointer-typed or not |
| `CallSemantics.OutDelivered` | lang/c_module_source_generator.cc:176-181 | the handler gets the cell of each OUT parameter, or the destination itself for a lone pointer-typed one |
| `CallSemantics.GuardsPassed` | lang/c_module_source_generator.cc:149-159 | no frame of the client is refused by the server's NULL checks |
| `CallSemantics.Delivery` | lang/c_module_source_generator.cc:93-204 | for any parameter list and any architecture with max_reg_args at least 5, the handler gets exactly the caller's IN and INOUT arguments and the OUT cells, in declaration order |
| `DeliveryExactly.DeliveryIffSettled` | lang/c_module_source_generator.cc:82-204 | for any parameter list that can be called: every call is delivered if and only if every parameter that the client passes in a slot has a size of 1 to pointer_size octets on the server |
| `DeliveryExactly.OffenderBreaks` | lang/c_module_source_generator.cc:149-195 | for every parameter without such a size there is a call, with all other arguments 0, that the server refuses at its NULL guard or whose handler gets a wrong value for it |
| `CallSemantics.CopyBackEffect` | lang/c_user_source_generator.cc:281-294 | every staged OUT destination that is not NULL receives the cell of the last parameter it was passed for, and no other memory changes |
| `CallSemantics.HasLastInto` | lang/c_user_source_generator.cc:281-294 | every destination has such a last parameter, so the copies determine all of memory |
| `CallSemantics.OutCellsSeparate` | lang/c_user_source_generator.cc:210-227 | different staged OUT parameters have different cells, all in the stub's own frame |
| `CallSemantics.ReadyIsMet` | lang/c_user_source_generator.cc:93-298 | the hypotheses of the delivery theorems are met by a call with one u8 argument and one u8 result on x86_64 |
| `CallSemantics.CallIsTransparent` | lang/c_user_source_generator.cc:228-297 | the whole call, for any handler: same arguments, memory changed only in the stub's frame before it, nothing added on failure, and on success exactly the copies to the staged destinations |
| `DispatchTable.ModuleGenerator.VisitTypes` | lang/c_module_source_generator.cc:288-300 | the sizes of named types after the enums, then the bitfields, then the structs of a revision |
| `DispatchTable.ScalarsAreSized` | lang/c_module_source_generator.cc:288-341 | if every enum and bitfield is over a type that is built in or declared before it is visited, the names with a size of 1 to 8 octets are exactly the scalars: built in, or declared as enum or bitfield and not as struct since |
| `DispatchTable.ScalarsAreSettled` | lang/c_module_source_generator.cc:82-119 | under that condition client and server classify every function alike whose by-value arguments are scalars, when a pointer has at least 8 octets |
| `DispatchTable.ModuleGenerator.VisitFunction` | lang/c_module_source_generator.cc:343-350 | the table grows with empty places up to the id and holds the function there; all other places stay |
| `DispatchTable.ModuleGenerator.VisitAbiversion` | lang/c_module_source_generator.cc:288-315 | types, table, span and per-revision spans after one revision |
| `DispatchTable.ModuleGenerator.VisitInterface` | lang/c_module_source_generator.cc:206-286 | after all revisions, one dispatch case for each function in the table, by id |
| `DispatchTable.HeaderGenerator.VisitAbiversion` | lang/c_header_generator.cc:215-252 | one vtable field a function, the span, and the revision count after one revision |
| `DispatchTable.TableHasNoHoles` | lang/c_module_source_generator.cc:343-350 | with dense ids the table has no holes and holds function j at place j |
| `DispatchTable.HeaderFields` | lang/c_header_generator.cc:327-350 | the vtable fields are the functions in declaration order |
| `DispatchTable.SpansCountFunctions` | lang/c_module_source_generator.cc:310-312 | with dense ids the spans of header and server both equal the number of functions |
| `DispatchTable.AbiSpansCount` | lang/c_module_source_generator.cc:306-314 | entry k of `abi_spans` is the number of functions of revisions 0..k, and the header counts the revisions |
| `DispatchTable.DispatchCallsItsSlot` | lang/c_module_source_generator.cc:263-284 | dispatching id i calls the function in vtable field i, which is the function with id i; ids outside the span and empty slots call nothing |
| `DispatchTable.ReachableIsDense` | core/main.cc:388-456 | the hypotheses on ids hold of every reachable artifact with fewer than 2^32 functions |
| `DispatchTable.VtableOnlyGrows` | core/main.cc:417-448 | extending an interface only appends vtable fields |
| `DispatchTable.EnumOverBitfieldIsRefused` | lang/c_module_source_generator.cc:288-296 | an enum over a bitfield of the same revision has size 0 on the server, which visits enums first: the generators disagree, and a call with value 0 is refused before it reaches the handler |
| `DispatchTable.OrderedDoesNotResolve` | lang/c_module_source_generator.cc:288-296 | that revision breaks the condition: the base of its enum is not declared before the enum is visited |
| `DispatchTable.OrderedIsCompiled` | core/main.cc:388-456 | a source compiles to an artifact with exactly that revision |
| `BitfieldMasks.EmitMasks` | lang/c_header_generator.cc:279-300 | the loop emits one mask a field, shifted by the widths before it |
| `BitfieldMasks.MaskBits` | lang/c_header_generator.cc:295-299 | a mask has exactly the bits from the sum of the widths before its field up to its own width |
| `BitfieldMasks.MasksDisjoint` | lang/c_header_generator.cc:295-299 | for widths below 64 with a sum of at most 64, no two masks share a bit |
| `BitfieldMasks.MasksCover` | lang/c_header_generator.cc:295-299 | together the masks have exactly the low sum-of-widths bits |
| `BitfieldMasks.MaskIsConstant` | lang/c_header_generator.cc:295-299 | every mask is a 64-bit constant; its shift is below 64 unless the field is empty and stands behind 64 used bits, where C leaves the shift undefined |
| `BitfieldMasks.ShiftIsUndefined` | lang/c_header_generator.cc:295-299 | fields of widths 63, 1 and 0 give a shift by 64 |
| `RoundConstants.ConstantsAreCubeRoots` | lang/sif.cc:59-76 | round constant t of SHA-256 is the fraction, in 32 bits, of the cube root of the t-th prime, the primes being defined by divisibility (section 4.2.2 of FIPS 180-4) |
| `RoundConstants.InitialIsSquareRoots` | lang/sif.cc:38-47 | the initial words are the fractions of the square roots of the first eight primes (section 5.3.3) |
| `RoundConstants.Sha1ConstantsAreSquareRoots` | include/uuid.h:246-275 | the constants of SHA-1 are, for twenty rounds each, the square roots of 2, 3, 5 and 10 in units of 2^-30 |
| `KnownSha256.DigestOfAbc` | lang/sif.cc:57-178 | the SHA-256 digest of the message abc, in octets |
| `KnownSha1.DigestOfAbc` | include/uuid.h:235-288 | the SHA-1 digest of the message abc, in octets |
| `KnownBlock.PaddingIs` | lang/sif.cc:148-166 | below 2^64 bits a message is padded with the octet 0x80, the fewest zeros that fill up whole blocks, and eight octets that denote the number of its bits by their places |
| `UuidText.DigitValues` | include/uuid.h:80-89 | digit n of 0..9a..f and of 0..9A..F has the value n, and is printed in lower case |
| `UuidText.CaseIgnored` | include/uuid.h:86-87 | a text denotes the same UUID, or none, with its capital digits in lower case, for every text |
| `UuidText.CanonicalCharacters` | include/uuid.h:586-602 | the canonical form character by character: two lower-case digits for each octet, hyphens behind octets 4, 6, 8 and 10 |
| `LexicalGrammar.Classes` | lang/lexer.cc:16-43 | the character classes of the lexer, with their characters written out |
| `LexicalGrammar.LexemeIsRead` | lang/lexer.cc:16-183 | a lexeme of the lexical grammar (white space by its octets, both kinds of comments, words, keywords by their spelling, numbers of all bases, strings, punctuation) in front of any text is read as what it means, and reading goes on behind it |
| `LexicalGrammar.LexemeInFront` | lang/lexer.cc:16-183 | every text but the empty one begins with a lexeme of that grammar, so the two together say what the tokens of every source are |
| `ParserGrammar.ArgumentsComplete` | lang/parser.cc:128-138 | every comma list of argument phrases up to the closing token, with or without a comma in front of it, is read as its arguments |
| `ParserGrammar.ArgumentsSound` | lang/parser.cc:128-138 | arguments that are read form such a list: a comma between any two, and at most one behind the last |
| `ParserGrammar.ParametersComplete` | lang/parser.cc:354-364 | the same of the parameters of a function |
| `ParserGrammar.ParametersSound` | lang/parser.cc:354-364 | parameters that are read form such a list |
| `ParserGrammar.EnumMembersComplete` | lang/parser.cc:310-337 | the same of the members of an enum, with their annotations |
| `ParserGrammar.EnumMembersSound` | lang/parser.cc:310-337 | members that are read form such a list |
| `ParserGrammar.TypeComplete` | lang/parser.cc:145-183 | every type phrase is read as its type, const flags of all levels included |
| `ParserGrammar.TypeSound` | lang/parser.cc:145-183 | a type that is read stands in the tokens as a phrase |
| `ParserGrammar.BodyComplete` | lang/parser.cc:374-423 | the declarations of a revision may stand in any order, with annotations in front of each and left-over ones at the end |
| `ParserGrammar.BodySound` | lang/parser.cc:374-423 | what is read as declarations stands in the tokens so, each kind in the order of the source, and functions are numbered in the order of the source |
| `ParserGrammar.ParserIsGrammar` | lang/parser.cc:43-82 | for every token list, revision number, id and interface: the parser yields the interface if and only if the tokens begin with a phrase for it in the declarative grammar |
| `ParserGrammar.WrongNumberIsRefused` | lang/parser.cc:63-73 | revision phrases up to one with another number than the next, modulo 2^64, are refused for that |
| `Numerals.NumberIsRead` | lang/parser.cc:96-114 | digits in front of other characters, leading zeros or not, are read as the sum of digits times powers of ten; none, or a sum of 2^64 or more, is an error |
| `Numerals.DecimalIs` | lang/sif.cc:778-796 | a number is printed as digits that add up to it, without a leading zero |
| `Metadata.NormalisedExactly` | core/main.cc:106-189 | normalisation succeeds if and only if no annotation is at fault and there are a `@uuid` and a `@prefix`, and then yields exactly the interface with their contents and the other annotations in order |
| `Metadata.FirstErrorExactly` | core/main.cc:106-189 | it fails with an error if and only if that is the fault of the first annotation with one (repeated, wrong number of arguments, no string literal, no UUID), or, if none has one, that of the missing `@uuid`, then `@prefix` |
| `ReferenceOctets.StringOctets` | lang/sif.cc:238-250 | a string is four octets of its length, its octets, and zeros up to a multiple of four |
| `ReferenceOctets.TypeOctets` | lang/sif.cc:424-442 | a type is, level by level, its const flag and its tag 1, 2 or 3, and then the name |
| `ReferenceOctets.TreeOctets` | lang/sif.cc:631-660 | a revision tree is its number in eight octets, the previous hash, and its declarations, with the octets of every node kind and all tags written out |
| `ReferenceOctets.HeaderOctets` | lang/sif.cc:1012-1016 | an artifact starts with S, I, F, 0, four zero octets, and the identity |
| `ReferenceOctets.PreimageOctets` | lang/sif.cc:696-714 | what is hashed for a revision is the string strata.sif.revision.v0, the interface UUID, and the octets of the tree |
| `ReferenceOctets.ArtifactOctets` | lang/sif.cc:982-1028 | an artifact is header, number of revisions, root hash, hash table, and the trees, the first one linked to 32 zero octets |
| `ReaderVerdicts.FlagsAreRead` | lang/sif.cc:444-467 | a type with any flags is read, each level being const if and only if its flag is not 0 |
| `ReaderVerdicts.FlagsOfRead` | lang/sif.cc:444-467 | and every type that is read stands in the octets with such flags, canonical if and only if they are all 0 or 1 |
| `ReaderVerdicts.HeaderVerdict` | lang/sif.cc:1034-1042 | the first eight octets of any input decide between the magic error, the version error, the end of input, and the identity behind them |
| `ReaderVerdicts.TreeVerdict` | lang/sif.cc:716-764 | number, link, and declarations in front of any octets: accepted exactly when number and link are the expected ones, the declarations can be read, and the hash of their reference octets is the expected one, with the error of the first that fails |
| `ReaderVerdicts.TableVerdict` | lang/sif.cc:1053-1067 | no revisions, or a root hash other than the first of the table, are errors |
| `ReaderVerdicts.TagVerdicts` | lang/sif.cc:399-493 | expression kinds and type kinds but 1, 2, 3 and directions but 0, 1, 2 are errors |
| `ReaderVerdicts.PaddingVerdict` | lang/sif.cc:314-329 | padding is accepted if and only if all of it is zero |
| `ReferenceText.TypeIs` | lang/sif.cc:819-840 | the text of a type, with its keywords written out |
| `ReferenceText.RevisionIs` | lang/sif.cc:944-978 | the lines of a revision: margins, keywords, commas and blank lines written out |
| `ReferenceText.InterfaceIs` | lang/sif.cc:1084-1107 | the decompiler's text of an interface is its lines: metadata, annotations, and the revisions with empty lines between them |
| `BuiltinCalls.SizesAreOctets` | core/main.cc:20-40 | the scalars built in are u8 to u64, s8 to s64, handle and status; the size of each is the octets of its C type, and `opaque` is the only other name in the table |
| `BuiltinCalls.BuiltinKeepsSize` | lang/c_module_source_generator.cc:288-300 | a built-in type that no revision declares has that size after any revisions, whatever they declare |
| `BuiltinCalls.ArgumentSlots` | lang/c_user_source_generator.cc:93-298 | on x86_64, with built-in types: if there are at most four parameters and all go by value, argument i is in slot i; otherwise the first two by-value arguments are in slots 2 and 3 and all others behind a pointer, on client and server |
| `BuiltinCalls.BuiltinCallsAreReady` | lang/c_module_source_generator.cc:82-204 | every call whose by-value parameters have built-in types meets the hypotheses of the delivery theorems on x86_64 |
| `BuiltinCalls.BuiltinCallsAreDelivered` | lang/c_module_source_generator.cc:93-204 | for every such call the handler gets every argument but the OUT ones as the caller gave it |

The functions that these members are about are not listed: `SifFormat.PutX` and `GetX` follow
lang/sif.cc:187-764, `Parsing.ParseX` lang/parser.cc, `Lexing` lang/lexer.cc, `Printing.PrintX`
lang/sif.cc:766-978 and 1084-1107, `Compiling` core/main.cc:83-353 and 388-456.

## Left out

- Files, streams and options: the commands take and return octets; opening files, directories, the command line, messages on stderr and CMake code are not modelled. Where the source throws in the middle of writing a file, what the file then holds is not modelled.
- Error positions: the parser's error values carry no message and no position. `std::stoull` failures, which the source does not catch, are the separate error `BadNumber`.
- Unterminated strings: at the end of the source the C++ lexer reads behind its buffer; the model returns the token `Unterminated`, which no grammar rule accepts. Characters above 127 outside strings and comments are unknown tokens, as in the C locale.
- Hexadecimal, binary and octal numbers: kept as the source has them: the lexer drops the prefix (`LexicalGrammar.LexemeIsRead`) and the parser reads the rest in base 10 (`Numerals.NumberIsRead`), so `0x10` is 10.
- Recursion depth of nested types, and allocation limits of the C++ containers.
- The kernel side of `StHandle_Query` and `StHandle_Call*`: not part of this model. A call is assumed to deliver its slots unchanged and the function id relative to its base.
- The characters of the generated C, `to_c_type`, struct attributes, weak symbols, `Open` and `Query` wrappers. C types of parameters are compared by the type they are written from.
- The random, time-based and system UUID generators, and wide-character names in the name generator.
- CallSemantics.WellCalled: parameter names are distinct, as C demands of them; SIDL itself does not check it. The same holds of function names in `DispatchTable.DistinctNames`.
- CallSemantics.Ready: architectures with fewer than five register arguments are excluded; for them the emitted `CallN` ends in a comma and is no C.
- CallSemantics.OutsideFrame: a destination inside the stub's own frame is excluded; a caller has no address there, as the frame begins with the call.
- CallSemantics.Load: memory is typed cell by cell; layout and padding of C structures are modelled by the order of their members, and a C structure or array passed by value is copied as a whole.
- DispatchTable.Place: the size `id + 1` of the function table does not wrap; in the source it wraps for id 2^32-1, which takes 2^32 functions or a hand-made artifact.
- Histories.FewFunctions: the theorems about dense ids and reproduction over runs ask for fewer than 2^32 functions, where 32-bit ids are unique; `ManyFunctions.CutIsNotReproduced` shows that they fail beyond, and `SplitExactly.SplitExactly` needs no such bound.
- DeliveryExactly.Callable: the converse of delivery asks that memory has room for a frame and that by-value integers have at least one octet.
