# Verified core of the TIDAS tools

This project models the parts of the TIDAS tools on which data integrity rests and proves, for every input and
every run, what they promise. `dafny verify dfyconfig.toml` checks everything.

## The lossless path

A TIDAS dataset becomes eILCD XML and comes back. `Projection` and `Adaptation` rewrite a JSON document into the
stricter eILCD form, step by step, for every category. Each step first tells the `RecoveryBuilder` (`Recovery`)
what it is about to change. The invariant that every step keeps is stated in `Steps`: laying the recorded fragments
over the current document (`Overlay`) gives exactly the source. The one exception is followed through too: set_pointer
cannot put back a member named `0`, so an empty array of that name that is removed is gone for good (`Damage`).
`Exposure.Exposed` says by recursion over the source where that happens, and `Lossless` concludes that a projection is
undone if and only if the source exposes nothing. When fragments no longer fit into a later one the source aborts; the
builder's flag `aborted` stands for that, and it is set only for sources that expose something. What a projected
document holds is told a second time without the steps: `Provenance` gives for each member of each object the member
of the source it is made of and its value, and `Provenance.Corresponds` carries that through all depths.

`Ordering` permutes members after the schema's content model without changing what they mean. `ContentModel` says by
places of the schema what that model lists, and `MemberOrder` which of two members comes first. `Format` prints XML and
reads it back with a stack machine. `XmlTree` defines documents as trees and proves that the reader accepts exactly
those, with their meaning, and which error it reports otherwise; `XmlSpelling` does the same for the writer's events.
`XmlRoundTrip` proves what comes back for every way the tokenizer may deliver the text, and `XmlRecovery` proves that
the fragments still fit after XML has collapsed singleton arrays and emptied objects. `Sidecars` covers the field types
and the envelope, `FieldTypes` what exactly the first changes. `EndToEnd` joins all of it, and `WholePath` runs it:
split, project, order, write, parse, restore, type, merge. The result has the normal form of the source;
`NormalForm.NormalIff` says which values share one.

The class of sources is `EndToEnd.XmlSafeSource`. All its conditions are recursions over the source that follow the
category and the path, and they look only at what the projection does not record: a member that is recorded whole, such
as an extension, may hold anything. The source exposes nothing; no array is directly in an array; and text stays
(`Exposure.TextStays`): text in an object has another member beside it, attributes are not null and have neither tabs nor
line ends, children are not the empty string, and strings in arrays are trimmed and not empty. The condition on text is
exact: `TextLoss.RoundTripIff` shows that the path fails for every source that meets the other two and not this one. The
case that shows why is `TypedText.TypedTextIsLost`: the projection removes the type of a review, and the bare text that
is left comes back as a string. Years of processes are canonical decimals, which is exact as well
(`Sidecars.TypedYearIff`). `XmlWriting.WrittenIff` says which projections can be written at all.

## Importing the specification

`FileSystem` is a file system whose operations may be refused at any point. `OwnedDirectories` and `SpecImport` are
the directories an import owns, the snapshots, the staging area, the rename loop and the rollback, in the form the
source has them. `SpecImport.Ends` says what is on disk for every way an import can end. Its consequences are spelled
out: what a success leaves, that a rollback report names exactly the files that were not restored, and when a failure
leaves no trace. `SpecImport.Refusals` says that an import stops only at a refused operation and leaves a file behind
only for another one. `ImportLock` adds the lock around it. `ImportProtocol`
interleaves any number of importers, each step one file operation, with refusals and deaths anywhere. A destination
is lost only when restoring it was refused, so when restorations succeed the set of lost destinations stays empty.

The comment on rollback promises to return to the state before the operation. For directories the code does not
always. There are two ways directories stay behind: a refused directory creation gives up the ownership list at once,
while staged and published files still stand in those directories (`SpecImport.RefusedDirectoryUndoneIff`), and a
staging directory that cannot be created leaves a newly made scratch directory (`SpecImport.RefusedStagingUndoneIff`).
`SpecImport.FailureUndoneIff` says for every cause exactly when nothing is left.

## Bounded execution

`MemoryBudget` is the compare-and-exchange loop as atomic steps of any number of threads, with 64-bit counters.
`CopyTree` is the bounded queue and the loop that fills and drains it on one thread.

## Fixpoints and indexes

`DatasetIndex` and `Closure`: the release index and the exact reference closure. `IndexChecks` and `ReferencePlaces` say
without the code which datasets pass and which objects refer to which entries. `Store`: the disk store of entities
as an insertion-ordered map with an index by external id. The index is complete only for external ids that two live
entities never shared; `Store.LookupLostIff` and `Store.SharedIdIsLost` show the other case. An addition refused for its
external id has already written the entity; `Store.RefusedExternalIdIsNotCounted` says exactly when the count of its type
is then wrong. `Versions`: one version
of each dataset and references that follow, against the rules of `VersionRules`, which know only records and links.
References that are items of an array are not refreshed by the source; the rules say so. `Scopes`: distribution
scopes over the Cargo graph. `CanonicalJson` and `Csv`: printers whose output can be read back in one way only.
`Sorting` is the library sort and `TextOrder` the order of
strings they share.

## Conventions

JSON objects are maps; `OrderedJson` keeps member order where order matters. Numbers keep their text, which is a
numeral. SHA-256 is taken as injective: digests are the digested values, hashed file names are distinct. Clocks, cancellation, refusals
by the operating system and spurious exchange failures are free choices. Refusals are counted and a cancellation is
remembered, so that contracts can say what a failure was due to. `hide` statements only shorten
proofs.

## Model

| member | source | states |
|---|---|---|
| WholePath.ThereAndBack | crates/tidas-conversion/src/lib.rs:356-412 | One run of the whole path, for any member order and any tokenizer: a safe file that can be split comes back with its normal form, unless its schema catalogue does not order the projection (never for lack of depth, if the catalogue is acyclic) or the projection has a name or a character that XML does not allow |
| WholePath.ToXml | crates/tidas-conversion/src/lib.rs:360-392 | The way out: the projected, ordered and written events of a dataset, with the projection undone exactly when nothing is exposed; with a schema catalogue the element written is the one that the orderer makes of the projection's members; events come out if and only if nothing aborts, the catalogue orders the projection and it has no name, nested text or character that XML does not allow |
| WholePath.FromXml | crates/tidas-conversion/src/lib.rs:393-408 | The way back: the first failing step decides the error, and otherwise the restored, typed and merged document is given |
| TextLoss.RoundTripIff | crates/tidas-conversion/src/projection.rs:58-102 | For every source that exposes nothing and has no array directly in an array where nothing is recorded: the path through XML gives back a document equal to the source up to normalization if and only if its text stays wherever the projection records nothing |
| TextLoss.SetBroken | crates/tidas-conversion/src/projection.rs:787-825 | Writing a fragment into a document in which an object has become a string, or a scalar another one, at a place no fragment holds, fails or leaves it so |
| TextLoss.NestedArrayIsFlattened | crates/tidas-conversion/src/format.rs:42-101 | An array of two arrays, of two texts and of one, comes back as an array of three texts, which is another value |
| EndToEnd.FileRoundTrip | crates/tidas-conversion/src/lib.rs:356-412 | For every safe source file, with or without envelope, every member order the writer may be handed and any way the tokenizer delivers the written events: reading back, restoring, typing and merging the envelope gives a document with the normal form of the source |
| EndToEnd.RoundTrip | crates/tidas-conversion/src/projection.rs:38-102 | The same for the dataset alone: reading back never fails, restoring never fails, and the result normalizes like the source |
| EndToEnd.LaidBackIff | crates/tidas-conversion/src/projection.rs:787-825 | A removed member can be written over the element read back if and only if that element has an attribute, a child or no text |
| TypedText.TypedTextIsLost | crates/tidas-conversion/src/projection.rs:560-568 | The projection of a review with a type and a text is the bare text with the type in a fragment; after XML the bare text is a string and writing the type fails |
| EndToEnd.OrdererOutput | crates/tidas-conversion/src/ordering.rs:133-172 | What the orderer hands the writer is one member that means the projected document |
| Pointer.UnescapeEscape | crates/tidas-conversion/src/projection.rs:774-785 | Unescaping a pointer segment undoes escaping it (section 3 of RFC 6901) |
| Pointer.DecodeEncode | crates/tidas-conversion/src/projection.rs:774-785 | Splitting and unescaping a pointer gives back the tokens it was built from, for all keys (section 4 of RFC 6901) |
| Pointer.EncodeInjective | crates/tidas-conversion/src/projection.rs:888-894 | Different token lists have different pointers |
| Pointer.AncestorIsPrefix | crates/tidas-conversion/src/projection.rs:879-887 | The string test for same-or-ancestor agrees with token prefix for all escaped keys, in both directions |
| Pointer.ParseDecimal | crates/tidas-conversion/src/projection.rs:787-825 | An array index is read back from its decimal text |
| Overlay.SetOne | crates/tidas-conversion/src/projection.rs:774-825 | Writing one recorded fragment never fails, removes exactly that fragment from what is still to be laid over, and leaves the overlaid document the same |
| Overlay.AgreeOverlay | crates/tidas-conversion/src/projection.rs:774-825 | What the overlay makes of a part depends only on the fragments at or below it |
| Recovery.RecoveryBuilder.Record | crates/tidas-conversion/src/projection.rs:117-145 | Recording keeps the fragments sorted and pairwise non-nested and adds exactly one fragment, with what was recorded below folded into it, unless one at or above it is held; it counts the rule once, and aborts only when the earlier fragments do not fit |
| Recovery.RecoveryBuilder.Reconstruct | crates/tidas-conversion/src/projection.rs:124-139 | Laying fragments into a value writes those at or below the path one after another and stops at the first that cannot be written; fitting ones never fail and give the overlaid value; whether or not they fit, no member named "0" appears that the overlay lacks |
| Recovery.RecoveryBuilder.IsHeld | crates/tidas-conversion/src/projection.rs:118-123 | The scan answers whether a fragment at or above the path is recorded |
| Recovery.RestoreIsOverlay | crates/tidas-conversion/src/projection.rs:58-78 | Restoring separate fragments in list order always succeeds and gives the overlaid document |
| Recovery.RestoreShows | crates/tidas-conversion/src/projection.rs:58-78 | Any restoration that succeeds, fitting or not, brings back no member named "0" that the overlay does not show |
| Damage.SetShows | crates/tidas-conversion/src/projection.rs:787-825 | A write that succeeds, fitting or not, brings back no member named "0" that was not shown before |
| Recovery.RestoreOrderIsIrrelevant | crates/tidas-conversion/src/projection.rs:58-78 | Every order of the same fragments restores the same document |
| Recovery.RestoreAll | crates/tidas-conversion/src/projection.rs:63-70 | The restoring loop computes restoration in list order |
| Steps.StepRemove | crates/tidas-conversion/src/projection.rs:760-772 | Recording and removing a member keeps the overlaid document; the one exception is a member named "0" |
| Steps.StepReplace | crates/tidas-conversion/src/projection.rs:760-772 | Recording and replacing a member keeps the overlaid document |
| Steps.PassedRemove | crates/tidas-conversion/src/projection.rs:760-772 | Recording and removing a member loses nothing, except a member named "0" of an object no fragment holds, which is lost for good |
| Steps.PassedMember | crates/tidas-conversion/src/projection.rs:169-254 | What a change inside a member loses, and only that, the change of the object loses |
| Steps.StepMember | crates/tidas-conversion/src/projection.rs:169-254 | A change inside a member that keeps the member's overlay keeps the whole object's |
| Steps.StepItem | crates/tidas-conversion/src/projection.rs:160-166 | A change inside an array item that keeps the item's overlay keeps the whole array's |
| Steps.RecordSelf | crates/tidas-conversion/src/projection.rs:117-145 | After recording a whole value, anything may stand in its place |
| Steps.RemovalUndoneIff | crates/tidas-conversion/src/projection.rs:787-825 | Writing a removed member back restores a document, at any depth, if and only if the member is not named "0" |
| Steps.ZeroMemberBreaksRestore | crates/tidas-conversion/src/projection.rs:787-825 | An input on which a second write fails after a "0" member turned an object into an array |
| XmlText.ProjectTextSettles | crates/tidas-conversion/src/projection.rs:872-877 | Projected text is trimmed, has no carriage return, and text that has neither is unchanged |
| XmlText.TrimmedAround | crates/tidas-conversion/src/projection.rs:872-877 | Trimming takes white space from both ends of a text and nothing else |
| XmlText.LineEndsAre | crates/tidas-conversion/src/projection.rs:872-877 | Every carriage return becomes a line feed and takes the line feed behind it along (section 2.11 of XML 1.0) |
| Languages.MergedCorrect | crates/tidas-conversion/src/projection.rs:294-332 | Merging makes languages distinct, joins for each language exactly its non-empty texts in order, keeps unlabelled fragments in order and loses no language |
| Languages.MergedExactly | crates/tidas-conversion/src/projection.rs:310-343 | The merged list item by item: each fragment without a language and the first one of each language, in place; the only one of its language is unchanged, and the first of several keeps its members and has the texts of all of them |
| Languages.JoinedIs | crates/tidas-conversion/src/projection.rs:317-335 | Joining the texts of a language one by one puts one blank line between those that are not empty, in order |
| Languages.MergeItems | crates/tidas-conversion/src/projection.rs:307-332 | The merging loop computes the specified merge |
| Languages.CountsRepeat | crates/tidas-conversion/src/projection.rs:285-299 | The counting loop answers whether some language occurs twice |
| Projection.RemoveKey | crates/tidas-conversion/src/projection.rs:760-772 | Removing a member records it so that overlay and document still give the source, unless it is named "0" and nothing holds it |
| Projection.MapExchangeDataSource | crates/tidas-conversion/src/projection.rs:175-186 | The exchange data source is wrapped one level deeper, recoverably |
| Projection.AdaptReferenceUri | crates/tidas-conversion/src/projection.rs:256-274 | A .json link becomes the .xml link of the same name, recoverably; Provenance.LinkMeansTheSame says what the new link stands for |
| Projection.MergeDuplicateLanguages | crates/tidas-conversion/src/projection.rs:276-345 | Every repeated-language field is merged, recoverably |
| Projection.TruncateText | crates/tidas-conversion/src/projection.rs:698-726 | Long text is cut to its limit, recoverably |
| Projection.AdaptProcessObject | crates/tidas-conversion/src/projection.rs:347-422 | All process steps, with the exact resulting object and nothing lost to recovery |
| Projection.AdaptFlowObject | crates/tidas-conversion/src/projection.rs:432-493 | All flow steps, likewise |
| Projection.AdaptLifecycleModelObject | crates/tidas-conversion/src/projection.rs:495-580 | All life cycle model steps, likewise |
| Projection.ProjectModelComment | crates/tidas-conversion/src/projection.rs:585-628 | Comments of several languages become one text, recoverably |
| Projection.AdaptLciaMethodObject | crates/tidas-conversion/src/projection.rs:630-644 | All LCIA method steps, likewise |
| Projection.AdaptSourceObject | crates/tidas-conversion/src/projection.rs:646-680 | All source steps, likewise |
| Projection.RemoveEmptyOptionalChildren | crates/tidas-conversion/src/projection.rs:735-758 | Members emptied by adaptation are removed, recoverably |
| Projection.OmitUnfit | crates/tidas-conversion/src/projection.rs:200-241 | The removals for every category, in order, with the exact object; what they lose is an empty array named "0" that nothing holds |
| Projection.AdaptShallow | crates/tidas-conversion/src/projection.rs:169-241 | All steps on one object in the order they are applied: the resulting object is fixed, every changed member is recorded, and what is lost is an empty array named "0" of an object that is not renamed |
| Surface.ShallowOnSurface | crates/tidas-conversion/src/projection.rs:169-241 | After the steps of any category no member that category must not carry is left on an object |
| Provenance.ShallowIsMade | crates/tidas-conversion/src/projection.rs:169-241 | For every object, place and category the steps give exactly the members that the rules make, told member by member without the steps: where each comes from after wrapping and renaming, which are left out, and its value, with links moved to .xml under their own name, texts cut to exactly their limit, languages merged, a mixed comment listing language and text in order, and the first compliance |
| Provenance.LinkMeansTheSame | crates/tidas-conversion/src/projection.rs:256-274 | A link that was moved to .xml stands for the link it was: both have one normal form |
| Exposure.ExtensionHides | crates/tidas-conversion/src/projection.rs:198-214 | Whatever an extension member holds is not exposed, because the member is recorded whole |
| Exposure.TracksText | crates/tidas-conversion/src/projection.rs:169-254 | Text stays in the source, wherever nothing is recorded, if and only if it stays in the projection: the condition can be read off the source before anything is projected |
| Adaptation.ExchangeDepth | crates/tidas-conversion/src/projection.rs:175-186 | Only objects three or four tokens deep are nested one member deeper, which is why the recursion ends |
| Adaptation.AdaptObject | crates/tidas-conversion/src/projection.rs:169-254 | Adapting an object and everything in it loses exactly what the source exposes, ends, leaves it on the surface of its category with the members the source says, and records exactly renamed objects and changed or removed members |
| Adaptation.AdaptValue | crates/tidas-conversion/src/projection.rs:152-167 | The same for any value |
| Adaptation.RemainsAreMade | crates/tidas-conversion/src/projection.rs:169-254 | The names of a projected object are those of the members that the rules make, except optional elements in which nothing is left |
| PathPlaces.ExchangePlaces | crates/tidas-conversion/src/projection.rs:424-430 | The exchange test accepts exactly the member exchange of exchanges of the dataset and its items |
| PathPlaces.ReviewPlaces | crates/tidas-conversion/src/projection.rs:728-733 | The review test accepts exactly members named review and items of one |
| PathPlaces.ShortTextPlaces | crates/tidas-conversion/src/projection.rs:704-708 | A text is cut exactly where its path mentions a general comment, a comment or a base name |
| NormalForm.NormalIff | crates/tidas-conversion/src/projection.rs:827-866 | Two values have one normal form if and only if they differ at most in how scalars are typed, in arrays around single items, in empty objects for null, and in .xml for .json at the end of links |
| Lossless.ProjectTidasToEilcd | crates/tidas-conversion/src/projection.rs:38-56 | For every category and every document: the projection ends and restoring it gives back exactly the source if and only if the source exposes no empty array named "0"; every member of every projected object is made of a member of the source by the rules, none else is missing, and every link keeps its normal form; members left and places recorded are those the source says |
| Lossless.RestoreTidasProjection | crates/tidas-conversion/src/projection.rs:58-78 | Restoring checks the schema version, applies the fragments and compares the digest, in that order, and succeeds exactly when all three do |
| Overlay.SetFailsIff | crates/tidas-conversion/src/projection.rs:787-825 | A write below a value fails if and only if its parts lead into a scalar other than null or under something that is no index of an array |
| Lossless.ZeroNamedEmptyArrayIsLost | crates/tidas-conversion/src/projection.rs:216-226 | A document whose projection, in every category, is not undone |
| Format.XmlWriter.WriteElement | crates/tidas-conversion/src/format.rs:42-101 | The writer emits exactly the specified events for a member value and fails exactly when that is undefined |
| Format.XmlToJson | crates/tidas-conversion/src/format.rs:103-181 | The reading loop over stack and root computes the specified run of the stack machine, which XmlTree.ReaderAccepts and XmlTree.ReaderFails tie to documents |
| XmlTree.ReaderAccepts | crates/tidas-conversion/src/format.rs:103-225 | For every event stream and every value: the reader gives that value if and only if the events are those of a document, one element with blank text around it and nothing invalid in it, that means it; text, CDATA sections and references add up in order, children of one name become an array, and an element with text alone its text |
| XmlTree.ReaderFails | crates/tidas-conversion/src/format.rs:103-170 | For every event stream and every error: the reader reports that error if and only if it is the one of the first faulty event where it stands, or nothing is faulty and an element was left open or none came |
| XmlTree.CDataIsText | crates/tidas-conversion/src/format.rs:136-142 | Inside an element a CDATA section is read as a reference that resolves to its text, in every event stream |
| XmlTree.NamesHaveOneColon | crates/tidas-conversion/src/format.rs:287-306 | A name is one valid part, or two with a colon between them |
| XmlWriting.WrittenIff | crates/tidas-conversion/src/format.rs:42-101 | An element is written, in any member order, if and only if every name in it is an XML name, every attribute and text is a scalar, and every character is an XML character |
| XmlSpelling.WrittenIsSpelled | crates/tidas-conversion/src/format.rs:42-101 | The events of everything that is written, part by part: attributes in member order, then children in member order, one element for each item of an array, then the text, with true, false and numbers spelled as they stand |
| XmlRoundTrip.ReadBack | crates/tidas-conversion/src/format.rs:22-181 | For every accepted value with a non-array root, every split of its text into events and all surrounding white space, parsing what was written gives the canonical form (sections 2.4, 2.11 and 4.6 of XML 1.0) |
| XmlRoundTrip.CanonStable | crates/tidas-conversion/src/format.rs:225-275 | The canonical form is its own canonical form |
| XmlText.AttributeTextSettles | crates/tidas-conversion/src/format.rs:205-207 | An attribute value is read back unchanged if and only if it has no tab and no line end (section 3.3.3 of XML 1.0) |
| XmlRoundTrip.RootReadsBackIff | crates/tidas-conversion/src/format.rs:42-66 | A written root is read back as a document if and only if it became one element; several are MultipleRoots and none is MissingRoot |
| XmlRecovery.SetCollapsed | crates/tidas-conversion/src/projection.rs:787-825 | Writing a recorded fragment into the document XML has collapsed does what writing it into the uncollapsed one does, up to normalization |
| XmlRecovery.RestoreCollapsed | crates/tidas-conversion/src/projection.rs:58-70 | Restoring the collapsed document never fails and normalizes like the restored uncollapsed one |
| Sidecars.PrintedIffCanonical | crates/tidas-conversion/src/projection.rs:91-97 | An integer text is printed back as it stands if and only if it is a canonical decimal: no plus sign, no leading zero, not -0 |
| Sidecars.TypedYearIff | crates/tidas-conversion/src/projection.rs:83-102 | Typing a year keeps its meaning if and only if it is a canonical decimal or no integer |
| Sidecars.PaddedYearChanges | crates/tidas-conversion/src/projection.rs:83-102 | A year with a leading zero comes back without it, as 2020 for 02020 |
| Sidecars.ProcessTypesNormal | crates/tidas-conversion/src/projection.rs:83-102 | Restoring process field types keeps the normal form of every process with canonical years |
| FieldTypes.TypesAreRestored | crates/tidas-conversion/src/projection.rs:83-102 | Restoring field types changes, in a process, exactly the two years that are 64-bit integers, into that number, and a null method into an empty object; everything else at every depth is unchanged, as are all other categories |
| Sidecars.SplitIff | crates/tidas-conversion/src/lib.rs:602-629 | A document is split into its dataset and the members beside it, which together are the document; a single member is the dataset whatever its name, and the error says why there is no split |
| Sidecars.MergeEnvelope | crates/tidas-conversion/src/lib.rs:631-676 | Merging adds every envelope member or reports a name that is in both |
| Sidecars.EnvelopeRoundTrip | crates/tidas-conversion/src/lib.rs:602-676 | Splitting a document, changing the dataset within its normal form and merging gives the document's normal form |
| Ordering.OrderKeepsMeaning | crates/tidas-conversion/src/ordering.rs:175-245 | Ordering changes nothing but member order, at every depth |
| Ordering.OrderOfMembers | crates/tidas-conversion/src/ordering.rs:203-243 | An ordered object lists known members by first occurrence in the flattened content model, then unknown ones by name, then attributes and text as they stood; what that content model is, ContentModel says |
| MemberOrder.MembersInOrder | crates/tidas-conversion/src/ordering.rs:203-243 | Every member stays, and of any two the one comes first that comes first in the content model; a known one before an unknown one, an unknown one before attributes and text; unknown ones by name, attributes and text as they stood |
| MemberOrder.UnsupportedAreReported | crates/tidas-conversion/src/ordering.rs:222-234 | Exactly the members that no content model has a place for, where it has no wildcard, are reported, with their path, at every depth |
| MemberOrder.OrderedAlike | crates/tidas-conversion/src/ordering.rs:133-245 | Whether a document can be ordered does not depend on the order of its members, at any depth |
| MemberOrder.DocumentOrderedIff | crates/tidas-conversion/src/ordering.rs:133-245 | A document is ordered if and only if exactly one schema element describes its only member and every object in it that ordering comes to has a content model that resolves |
| ContentModel.BaseComesFirst | crates/tidas-conversion/src/ordering.rs:282-301 | The content model of an element whose type extends another is that of an element of the other type, followed by the elements of the extension; it fails exactly when one of the two does |
| ContentModel.OwnElements | crates/tidas-conversion/src/ordering.rs:282-301 | Without a known base type it is the elements of the type itself |
| ContentModel.ElementsWithoutType | crates/tidas-conversion/src/ordering.rs:247-280 | An element without a type lists what the element it refers to lists, or nothing |
| ContentModel.ParticlesAreListed | crates/tidas-conversion/src/ordering.rs:303-329 | The particles of a type list exactly the elements that stand in it, through sequences, choices and alternatives of any depth and through groups at the places where they are referred to, in document order, and fail exactly when a reference among them does not resolve |
| ContentModel.ListIsUnique | crates/tidas-conversion/src/ordering.rs:303-329 | There is only one such list |
| ContentModel.ElementIs | crates/tidas-conversion/src/ordering.rs:414-441 | An element in a content model stands for the element it refers to or for itself, under a key with the prefix common: exactly in the common namespace |
| ContentModel.NamesResolve | crates/tidas-conversion/src/ordering.rs:525-540 | A qualified name is what stands after the first colon, in the namespace of its prefix, or in that of the element it stands at |
| ContentModel.FirstNamedIs | crates/tidas-conversion/src/ordering.rs:521-523 | The child of a name is the first one with it |
| ContentModel.WildcardsAreInherited | crates/tidas-conversion/src/ordering.rs:331-412 | A content model allows anything if and only if a wildcard stands in the type or in one it extends |
| Ordering.OrderGoesDeep | crates/tidas-conversion/src/ordering.rs:203-243 | Each known member is itself ordered by the last child of its key; every other member is unchanged |
| Ordering.FirstOccurrenceOrder | crates/tidas-conversion/src/ordering.rs:203-221 | Dropping repeated keys keeps any two keys in the order of their first occurrences |
| TextOrder.StrLeIs | crates/tidas-conversion/src/ordering.rs:235-235 | Names are compared by their first differing character, and a name before its continuations |
| Ordering.OrderElement | crates/tidas-conversion/src/ordering.rs:175-245 | The ordering loops compute the specified result or error and record every unsupported member in order |
| Ordering.OrderingDiagnostics.Record | crates/tidas-conversion/src/ordering.rs:28-50 | Every record is counted and the first 200 are listed |
| Ordering.OrderingDiagnostics.Truncated | crates/tidas-conversion/src/ordering.rs:44-50 | The list is truncated exactly when more than 200 were recorded |
| Ordering.OrderDocumentKeepsMeaning | crates/tidas-conversion/src/ordering.rs:133-172 | Ordering a document with one described root keeps its meaning |
| Ordering.OrderDocumentReporting | crates/tidas-conversion/src/ordering.rs:133-172 | The method that finds the one schema element of a root and orders the document computes the specified result and reports; MemberOrder and ContentModel say what these are |
| OrderingDepth.OrderDocumentDeeper | crates/tidas-conversion/src/ordering.rs:133-172 | Whatever ordering gives, unless the depth was too small, every larger depth gives |
| OrderingDepth.DepthIsEnough | crates/tidas-conversion/src/ordering.rs:282-330 | When no type and no group refers to itself, directly or through others, as many levels as there are types and groups are enough to order every document |
| OwnedDirectories.CreatedDirectories.Create | crates/tidas-assets/src/spec_import.rs:822-851 | Makes exactly the missing directories and owns them; a failed look changes nothing; a refused creation gives up everything owned, at once; it fails exactly when one operation is refused |
| OwnedDirectories.CreatedDirectories.Remove | crates/tidas-assets/src/spec_import.rs:854-862 | Removes exactly the owned directories that hold nothing else |
| OwnedDirectories.DeepestFirstSorts | crates/tidas-assets/src/spec_import.rs:855-856 | The removal order is deepest first and names each owned directory |
| FileSystem.AboveIsDirectory | crates/tidas-assets/src/spec_import.rs:822-838 | In a well-formed file system everything above an entry is a directory |
| SpecImport.TakeSnapshot | crates/tidas-assets/src/spec_import.rs:866-896 | A snapshot is the exact prior state, and anything but a file or nothing is refused |
| SpecImport.Prepare | crates/tidas-assets/src/spec_import.rs:988-1013 | Preparation touches nothing outside the staging directory and ends with all files staged and all prior states known, unless an operation is refused or a directory stands where a file should go |
| SpecImport.Restore | crates/tidas-assets/src/spec_import.rs:937-944 | One restoration brings back bytes, mode or absence, or leaves the new file |
| SpecImport.Rollback | crates/tidas-assets/src/spec_import.rs:927-958 | After a rollback with any failing restorations the file system is the prior one with exactly the unrestored files and the directories they need; each of them is one refused operation |
| SpecImport.PublishStaged | crates/tidas-assets/src/spec_import.rs:1016-1095 | Whatever fails at whatever index, the report and the resulting file system are exactly as specified; it fails only at a refused operation |
| SpecImport.Publish | crates/tidas-assets/src/spec_import.rs:962-982 | The same for the whole publication, scratch and staging directory included: it succeeds unless an operation is refused, the staging directory was there or a directory stands where a file should go |
| SpecImport.FailureUndoneIff | crates/tidas-assets/src/spec_import.rs:962-1062 | An import that failed and restored what it had replaced, for whatever cause, leaves files, modes, absences and directories exactly as before, except after a refused directory or staging directory: then if and only if all directories above what stood at that moment were there before |
| SpecImport.RefusedStagingUndoneIff | crates/tidas-assets/src/spec_import.rs:969-970 | An import whose staging directory cannot be created leaves everything as before if and only if every directory above the staging directory was there before |
| SpecImport.RefusedStagingLeavesScratch | crates/tidas-assets/src/spec_import.rs:969-970 | In an empty tree an import whose staging directory cannot be created leaves the scratch directory behind |
| SpecImport.RefusedDirectoryUndoneIff | crates/tidas-assets/src/spec_import.rs:844-846 | An import stopped by a refused directory creation leaves everything as before if and only if no directory had to be made for an already published file or the staging directory |
| SpecImport.RefusedDirectoryLeavesDirectories | crates/tidas-assets/src/spec_import.rs:844-846 | Two new files in new directories, the second refused: the first file is gone, its directory and the scratch directory stay |
| SpecImport.FailuresAreExact | crates/tidas-assets/src/spec_import.rs:927-958 | Every destination the rollback report names holds its new file, and every other place holds its prior state or is a directory made for what stands |
| SpecImport.ListedInOrder | crates/tidas-assets/src/spec_import.rs:936-943 | Files that stayed behind are reported in the order in which they were published |
| SpecImport.SuccessIsComplete | crates/tidas-assets/src/spec_import.rs:1016-1095 | After a success every destination holds its new bytes and mode and nothing else changed but new directories |
| ImportLock.Lock.Acquire | crates/tidas-assets/src/spec_import.rs:744-785 | The lock is taken only where its file did not exist; a failed attempt leaves the file system as it was, and either the file was there or an operation was refused |
| ImportLock.Lock.Drop | crates/tidas-assets/src/spec_import.rs:788-795 | Dropping removes the lock file and the empty directories made for it |
| ImportLock.ImportPublicSpec | crates/tidas-assets/src/spec_import.rs:555-592 | A whole import: without the lock nothing changes; with it the outcome is as for a publication, the lock and its directories leaving no trace |
| ImportLock.UnderLock | crates/tidas-assets/src/spec_import.rs:571-592 | Taking the lock before and giving it back after a publication changes nothing about what is left |
| ImportProtocol.Kept | crates/tidas-assets/src/spec_import.rs:743-795 | No step of any importer, in any interleaving, breaks the protocol invariant |
| ImportProtocol.OneAtATime | crates/tidas-assets/src/spec_import.rs:743-795 | At most one importer is between taking the lock and giving it back |
| ImportProtocol.UnlockedMeansCommitted | crates/tidas-assets/src/spec_import.rs:571-592 | In every run, whenever no one holds the lock, every destination not reported as lost holds the bytes of the latest successful import that wrote it or its initial state |
| ImportProtocol.RollbackKeepsCommits | crates/tidas-assets/src/spec_import.rs:927-945 | In every run, what a rollback puts back at a destination is the latest commit of that destination |
| ImportProtocol.ReplayedIsLatest | crates/tidas-assets/src/spec_import.rs:1016-1095 | Replaying the successful imports gives each place the file of the last one that wrote it |
| MemoryBudget.Kept | crates/tidas-runtime/src/lib.rs:69-102 | Every atomic step of every thread keeps: used is the sum of reservations, used and peak stay within the limit, and peak lags only behind exchanges not yet recorded |
| MemoryBudget.RunKeeps | crates/tidas-runtime/src/lib.rs:69-102 | The same in every reachable state of every interleaving |
| MemoryBudget.PeakIsHighest | crates/tidas-runtime/src/lib.rs:86-96 | With no thread between its exchange and its peak update, peak is the historical maximum of used |
| MemoryBudget.DropNeverWraps | crates/tidas-runtime/src/lib.rs:126-130 | The 64-bit subtraction of a drop never wraps |
| MemoryBudget.RefusalWasTrue | crates/tidas-runtime/src/lib.rs:69-85 | A thread about to be refused saw the value it holds during this very call |
| MemoryBudget.RefusedOnlyOverLimit | crates/tidas-runtime/src/lib.rs:69-85 | A refusal means some value of used seen during the call, plus the request, was over the limit |
| CopyTree.BoundedQueue.Send | crates/tidas-runtime/src/lib.rs:168-191 | Sending into a queue with room appends one message and its reservation, or changes nothing; it stops exactly when asked to, and otherwise fails only when the reservation is over the limit |
| CopyTree.BoundedQueue.Recv | crates/tidas-runtime/src/lib.rs:194-205 | Receiving gives the oldest message unless it is asked to stop |
| CopyTree.BoundedQueue.Close | crates/tidas-runtime/src/lib.rs:132-166 | Dropping the queue releases each queued reservation once |
| CopyTree.CopyTree | crates/tidas-conversion/src/lib.rs:219-280 | The copy loop never waits on its own queue, processes files in walk order with the result of processing them one by one whatever the capacity, blames exactly the first failing file, stops at an unreadable entry, a link or an orphaned sidecar, runs out of memory only when a full queue of consecutive jobs does not fit, stops otherwise only when asked to, and releases all memory |
| CopyTree.JobsAreFiles | crates/tidas-conversion/src/lib.rs:238-273 | The files processed are exactly the plain files, without the sidecars on the way back, each once and in walk order |
| CopyTree.ProcessNextFile | crates/tidas-conversion/src/lib.rs:299-335 | Takes the oldest queued file, releases its memory and processes it |
| DatasetIndex.Load | crates/tidas-release/src/index.rs:90-158 | Loading succeeds exactly when the schema version is known, the index is not empty and counts its datasets right, every dataset passes its checks and has the file with its hash, and identities and paths are unique; the result is the entries in strictly ascending key order, and otherwise the error names what stopped the first dataset that does not pass |
| DatasetIndex.StopsOnce | crates/tidas-release/src/index.rs:110-151 | There is one dataset at which loading stops and one error for it: its first flaw, else a repeated identity, else a repeated path, else what is wrong with its file |
| IndexChecks.FlawlessIff | crates/tidas-release/src/index.rs:113-122 | A dataset passes its checks if and only if its fields are filled in, its hashes are 64 hexadecimal digits and every part of its path is a portable name: no parent directory, no control or reserved character, no device name in any case |
| IndexChecks.FlawIsSo | crates/tidas-release/src/index.rs:113-124 | A dataset that fails its checks is refused for the first check that fails, hashes before the path before the empty fields |
| IndexChecks.KeptIs | crates/tidas-release/src/index.rs:113-124 | What is kept of a dataset is what was listed, with identity and hashes in small letters |
| DatasetIndex.Get | crates/tidas-release/src/index.rs:164-169 | Binary search finds an entry exactly when one has the key |
| Closure.WalkReferences | crates/tidas-release/src/closure.rs:155-201 | Collects exactly the references of a document and fails exactly when one lacks a version; which objects are references, ReferencePlaces says |
| ReferencePlaces.ReferenceIs | crates/tidas-release/src/closure.rs:155-221 | For every object: it refers to a key if and only if it names, in any case, one of the eight dataset types with an identifier and a version, outside a link to a preceding version, and the key is made of these; it lacks a version if and only if it names a dataset without one |
| ReferencePlaces.EntryIsReferredTo | crates/tidas-release/src/closure.rs:155-221 | An object that names an index entry of any of the eight types with its identifier and version, in any case, refers to exactly that entry |
| ReferencePlaces.ReferencesAtPlaces | crates/tidas-release/src/closure.rs:155-201 | The references of a document are those of the objects at all its places, with the location of each |
| ReferencePlaces.VersionedEverywhere | crates/tidas-release/src/closure.rs:155-201 | A document versions all its references if and only if no object at any place lacks a version |
| Closure.Resolve | crates/tidas-release/src/closure.rs:35-140 | On success the selection is exactly what references reach from the profile's roots and each member's references are counted once; each error names a reachable member for which what it says is so, and a run that is not cancelled has no other way to fail |
| ReferencePlaces.EdgesAreMentions | crates/tidas-release/src/closure.rs:60-116 | The closure goes from a readable entry to exactly the keys that some object of its document mentions |
| Closure.ResolveComplete | crates/tidas-release/src/closure.rs:60-116 | With readable, fitting and versioned documents, a missing member is reported exactly when a reachable document names a key outside the index |
| Closure.ClosedHoldsAll | crates/tidas-release/src/closure.rs:60-116 | A set with all roots that references do not leave holds everything reachable |
| Store.CanonicalStore.Add | crates/tidas-import/src/store.rs:37-73 | The exact new files and the exact error after an addition, a refused key, and an external id refused half way |
| Store.CanonicalStore.RemoveType | crates/tidas-import/src/store.rs:105-127 | Exactly the files of the type are gone |
| Store.CanonicalStore.IterType | crates/tidas-import/src/store.rs:129-142 | Iteration reads the recorded order up to the first entity it cannot read |
| Store.HistoryRefines | crates/tidas-import/src/store.rs:37-127 | After any successful additions and removals the files are the insertion-ordered map of the same history, every external pointer leads to an entity with that external id, and never-shared ids are indexed |
| Store.IterationAfter | crates/tidas-import/src/store.rs:245-263 | After any such history iteration yields each live entity once in first-add order |
| Store.LookupAfter | crates/tidas-import/src/store.rs:85-98 | A lookup finds only entities with the external id, and the one there is if the id was never shared |
| Store.LookupLostIff | crates/tidas-import/src/store.rs:51-60 | An addition takes away the way to another live entity if and only if it gives up an external id that the entity carries too |
| Store.SharedIdIsLost | crates/tidas-import/src/store.rs:51-60 | Three additions after which a live entity cannot be found by its external id |
| Store.RefusedExternalIdIsNotCounted | crates/tidas-import/src/store.rs:61-72 | An entity refused for its external id is there and listed all the same; the count of its type still matches the list if and only if it replaced another entity |
| Store.RefusedPointers | crates/tidas-import/src/store.rs:51-72 | An addition refused for its external id takes away the way by the external id that the replaced entity carried and no other, and every way left leads to an entity with that external id |
| Store.OtherTypesStay | crates/tidas-import/src/store.rs:37-127 | Additions, refused or not, and removals leave everything of other types as it was |
| Store.EmptyExternalIdIsRefused | crates/tidas-import/src/store.rs:61-72 | An entity with the empty external id added to an empty store is refused, listed and not counted |
| Versions.NormalizeNode | crates/tidas-export/src/versioning.rs:157-211 | The walk over a document computes the specified normalization and reports a change exactly when something differs; Versions.NormalizedIsUp ties it to the records |
| Versions.NormalizedIsUp | crates/tidas-export/src/versioning.rs:157-283 | For every document and every package: normalizing removes a member if and only if it has one of the two preceding names and the package holds two versions of the dataset it points to; a reference that asks for another version than the greatest gets that version in its field and its link; everything else at every depth is unchanged |
| Versions.TargetIs | crates/tidas-export/src/versioning.rs:213-266 | What a reference points to: the first category its link goes through, else that of its type; its identifier, else that in its link; its version, else that in its link |
| Versions.NormalizedIsCurrent | crates/tidas-export/src/versioning.rs:157-211 | Afterwards no link to an earlier version of a dataset with several versions and no outdated reference is left as a member value, at any depth |
| Versions.RefreshedTarget | crates/tidas-export/src/versioning.rs:213-283 | Refreshing a reference and its link keeps the dataset it points to and makes its version the latest |
| Versions.VersionedLink | crates/tidas-export/src/versioning.rs:268-283 | A printed versioned link is parsed into its parts |
| Versions.SecondRunUnchanged | crates/tidas-export/src/versioning.rs:157-211 | Normalizing a document again, with one version of everything, changes nothing |
| Versions.OnePerDataset | crates/tidas-export/src/versioning.rs:63-121 | Exactly one record of each dataset survives and no version is greater |
| Versions.SecondRunChangesNothing | crates/tidas-export/src/versioning.rs:63-121 | A second run over a package sees the same latest versions, no duplicates, and changes no file |
| Versions.Package.NormalizePackageVersions | crates/tidas-export/src/versioning.rs:63-121 | The files left are exactly the greatest record of each dataset, each brought up to the records there were; a preceding-version link is gone exactly when the package held two versions of its dataset; kept plus removed is scanned, and datasets, those with several versions and rewritten files are counted |
| Versions.BuildWorld | crates/tidas-export/src/versioning.rs:68-79 | The greatest version of every dataset and the datasets with several |
| Scopes.CargoScopes | crates/tidas-dist/src/notices.rs:965-1002 | A package is marked normal exactly when a path of normal edges reaches it and build exactly when some path without development edges has a build edge; fails exactly for a package in scope that is missing or malformed, and the error says what is wrong with it; ends on cyclic graphs |
| Scopes.Expand | crates/tidas-dist/src/notices.rs:984-998 | Exactly the targets of normal and build edges are queued, with the scope they get |
| Scopes.ClosedHoldsAll | crates/tidas-dist/src/notices.rs:978-1000 | Marks that hold the root and that no edge leaves hold every package in scope |
| CanonicalJson.PrintInjective | crates/tidas-assets/src/spec_pin.rs:415-459 | Two values print to the same text exactly when they are equal up to member order |
| CanonicalJson.Unambiguous | crates/tidas-assets/src/spec_pin.rs:421-459 | Printed text determines the value and where it ends, whatever follows |
| CanonicalJson.ReadQuoted | crates/tidas-assets/src/spec_pin.rs:429-429 | A reader of JSON strings gets back what was quoted (section 7 of RFC 8259) |
| CanonicalJson.EscapesAre | crates/tidas-assets/src/spec_pin.rs:429-429 | Quotes and backslashes are escaped by themselves, other control characters in hexadecimal with small letters, and every other character stands for itself |
| CanonicalJson.PrintIsText | crates/tidas-assets/src/spec_pin.rs:421-459 | What is printed is the text of the value in the grammar of RFC 8259 without white space: null, true, false and numbers spelled, commas between items, names quoted, each once and in order |
| CanonicalJson.SortedIsUnique | crates/tidas-assets/src/spec_pin.rs:440-443 | There is only one way to list a set of names in order |
| CanonicalJson.WriteCanonicalJson | crates/tidas-assets/src/spec_pin.rs:421-459 | The printer appends exactly the canonical text, whatever order an object keeps its members in |
| Csv.ReadWrittenRows | crates/tidas-import/src/mapping.rs:410-440 | A reader after section 2 of RFC 4180 recovers rows written one after another if and only if none of them is empty |
| Csv.PrintRowsInjective | crates/tidas-import/src/mapping.rs:410-440 | Different lists of non-empty rows are written differently |
| Csv.QuotedIff | crates/tidas-import/src/mapping.rs:414-434 | A field is written as it stands if and only if it has no comma, no quote and no line end |
| Csv.WriteCsvRow | crates/tidas-import/src/mapping.rs:410-440 | The writer appends exactly the specified row |

## Left out

- TextLoss.RoundTripIff: sources with an array directly in an array, in a place where nothing is recorded, are left out. XML drops the inner brackets (`TextLoss.NestedArrayIsFlattened`); whether that shows depends on the lengths of the arrays and on what is recorded below them.
- EndToEnd.RoundTrip: the same sources are left out.
- EndToEnd.FileRoundTrip: the same sources are left out.
- Ordering.OrderElement: chains of base types and groups are followed to a depth given as a parameter. On an acyclic catalogue the number of types and groups is enough (OrderingDepth.DepthIsEnough); the source has no bound and would not return on a cyclic schema.
- Ordering.OrderDocumentReporting: takes the same depth.
- Format.XmlToJson: starts from well-formed events; tokenization and attribute escaping are not modelled, and white space in attributes is taken to be written as it stands. Name characters beyond ASCII are a parameter.
- WholePath.ThereAndBack: members of a projected document are handed on in any order, where the source keeps theirs; files, sidecar files and budgets are not part of it.
- SpecImport.Publish: the name of the staging directory is a parameter, removing a directory fails only when it is not empty, and removing the staging tree succeeds.
- ImportProtocol.UnlockedMeansCommitted: tracks files, not the directories that losing importers may briefly make for the lock.
- CopyTree.CopyTree: converting one file is an abstract step on the report and the output; that step's own memory reservations are not tracked, and making an output directory does not fail.
- Closure.Resolve: reading and budget are one abstract lookup, and members of an object are visited in any order, so which of several errors is reported is not fixed.
- DatasetIndex.Load: what is below the input directory, with the hash of each file, is a parameter; sizes, budget and cancellation are not part of it, and lower case is ASCII.
- Store.CanonicalStore.Add: input and output errors between the writes are not modelled, and key length is counted in characters.
- Versions.Package.NormalizePackageVersions: the counters of updated and removed links are not modelled; digits in file names are ASCII.
- Scopes.CargoScopes: the choice of the root among packages is a parameter.
- CanonicalJson.ReadQuoted: of the numeric escapes the reader knows those below U+0100, which is more than the printer uses.
- Error texts.
- Recovery.RecoveryBuilder.Record: how often each rule was applied is counted, but no total over a whole projection is stated.
- Symbolic links and path checks before an import, which only refuse.
- The process exchange spool of the store, semantic coverage and diagnostics of the closure, the round-trip report of releases: single loops with easy claims.
- Reports, progress, command line, archives, databases, schema validation and subprocesses.
