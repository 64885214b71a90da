# Schema server: model and proofs

The schema server loads YANG modules into a tree, answers questions about the
tree's nodes, keeps every node in a key/value database with a cache in front of it,
turns flat item lists and XPath text into keyed paths, and receives schema files
over a chunked upload protocol.  This project models those parts in Dafny and
proves what they promise.  `dafny verify dfyconfig.toml` checks all of it.

## The model

**The tree** (`YangTree`).  A schema is a sequence of entries addressed by index.
Each entry has its parent link and its `Dir` map, as `yang.Entry` pointers do; entry 0
is the synthetic root `__root__`.  The subset type `Links` says that parent links and
`Dir` maps are inverse to each other, that names are YANG identifiers (section 6.2 of
RFC 7950), that a case sits in a choice and a choice holds only cases (section 7.9.2),
and that list keys are distinct leaves directly below their list.  The subset type
`Tree` adds that names are unique among the nodes of one scope, choices included and
cases transparent (section 6.2.1).  A module has no parent link or has the root as parent.
The loader leaves the link of every module empty (`pkg/schema/schema.go:69-72`); the code
tests for a root parent all the same, and only the repository's Go tests build such trees.

**Map order.**  Go walks maps in no fixed order.  Every such walk is a `method` whose
loop picks any remaining name (`:|`), and it is proved equal to a specification
function, so the result is shown not to depend on the order.  Where the order does show
(the order of expanded paths, the module that `BuildPath` meets first) the contract
allows all outcomes.

**Methods and specifications.**  Code that works step by step is a method with loops,
proved against a specification function or predicate; the properties are lemmas about
those specifications.  `GetEntryFrom` computes `Descend`, `GetEntry` computes
`Resolve`, `GetEntryPath` and `BuildPathUpFromEntry` compute `PathOf`, `ParsePath`
computes `Parse`, `ToXPath` computes `XPathOf`, `BuildPathFrom` computes `BuildFrom`,
`PersistStore.ToPath` computes `ToPathRest`, the upload loop computes `Run`.

**The store** (`KeyCodec`, `SchemaElems`, `StoreIndex`, `Lookups`, `StoreRuns`, `StoreItems`, `PersistStore`).
The database is a map from byte keys, written as strings, to records and elements; the
cache is a map that may lose entries at any time.  `StoreIndex.Holds` says that the
entries of a schema key are exactly the elements of a tree's data nodes;
`PersistStore.AddSchema` establishes it.

**Text** is a sequence of code points.  Comparing valid UTF-8 byte by byte orders text
as comparing code points does.

## What is proved, and where the code needs a guard

- *What a lookup answers.*  `GetEntryExact`, `LookupExact` and `LookupInModule` say what
  `GetEntry` and the store answer without naming any function of the model: the node whose path
  from its module are the written names, prefixes left out, in the module that is tried first
  among those that have it.  Modules whose name holds `ietf` or `iana` are tried after all
  others, and the modules of one group in dictionary order (`Earlier`, `StandardsLast`,
  `StandardComesLast`).  The answer says, field by field, what the schema says about that node
  (`ElementSays`); an entry is state exactly when parent links lead from it to one that says
  `config false` (`StateMeans`).
- *Index and tree.*  On a path of plain names that does not start with a module name,
  `GetEntry` and the store's lookup agree exactly when the index has no node for it or the
  node does not hide in a top-level choice (`WalksAgree`): `GetEntry` looks for the first
  name in the module's own `Dir`, the index flattens choices first.  After a module name
  the index goes on below the module, while `GetEntry` looks for that name below it; the two
  agree exactly when the module has nothing at the whole path, and either the name stands
  alone and no better module has an entry of that name, or the index has no node
  (`ModuleStartAgrees`, `ModuleNameSplits`).
- *`BuildPath` and `ToStrings`.*  A valid keyed path whose first name is no module name comes
  back from the walk through its module exactly when its items can be read by name and the
  keys of a last list are the first ones in sorted order; no other result is possible when
  that module alone has the first name, and a first name that is a module name never comes
  back (`FlattenThenBuild`).  Which of several modules with the name is met first depends on
  map order, so the path always comes back exactly when it does from each of them
  (`FlattenThenBuildShared`, for modules that all have the path).  `l[b=1]` of a list with keys
  `a` and `b` comes back as `l[a=1]` (`SecondKeyMoves`).  Reading by name (`ByName`) asks for two things.  Each step must be in
  the predecessor's `Dir` or one choice below it, as `findChoiceCase` looks no deeper.  And a
  container with a child of its own name must have a choice there through which the path goes
  on: a data child of that name always spoils the result, and a choice uses up the name of the
  entry behind it, so that entry must end the path without values or be a container whose
  child is in its own `Dir`.  Otherwise a name is lost, and only a repetition of the next name
  makes up for it (`Unnamed`).  `OwnNamedRefused` and `OwnNamedLosesKey` are inputs on which
  this goes wrong.  On paths without such containers the first condition alone decides
  (`OwnFreeBuild`).  That no item names a choice need not be required: choices share the
  namespace of their siblings.
- *Flattening back.*  What `BuildPath` builds in a module flattens to the input exactly when
  the first item has the prefix of a module or is a plain name that is no module, and the items
  are read back in that module (`BuildThenFlatten`).  An unknown prefix is accepted and dropped
  (`UnknownPrefixDropped`), and a first item that is a module name comes back twice.  Reading
  back (`ReadBack`) follows the items from entry to entry and fails in one kind of place only:
  at a container with a child of its own name.  A data child of that name always doubles an
  item.  A choice of that name uses up the name of the entry found in it; the items after that
  name must then have run out, or name a data child in the `Dir` of that entry, or a choice in
  whose case reading goes on in the same way (`ReadLate`).  Otherwise an item is lost, and what
  makes up for it is only that all items up to the next name read are that name again.  That two
  different lost items are never made up for is `MixedNever`; `OwnNamedDropsValue` is an input
  that starts properly and loses its value.
- *XPath.*  An element is printable when its name is non-empty without slash, bracket and NUL
  and ends in no backslash before a predicate, its keys and values are non-empty without NUL,
  no key has a `=` and no value ends in a backslash (`Printable`).  For origin-free paths of
  printable elements without brackets in keys and values, printing and parsing is the identity
  exactly when the text does not look as if it started with an origin (`PrintThenParse`).  What
  comes before a colon is the origin exactly when nothing or a slash follows and no slash comes
  before (`ParseOrigin`, `ParseNoOrigin`).  A path with
  an origin comes back exactly when it has no elements (`OriginRoundTrip`): the printer
  puts no slash behind the origin's colon.
- *Deletion.*  Among schema keys without colons and without `@` in name and vendor
  (`ValidKey`), `DeleteSchema` drops exactly its own entries, but the records of all schemas of
  the same name and vendor whose version starts with the deleted version
  (`DeleteExact`); such a schema keeps its entries and is no longer listed
  (`DeleteOrphans`).
- *Cache.*  Transparency holds over all runs that add no key with live cache entries.
  That guard is exact even for additions of whole trees (`AdditionGuardExact`), and reloading
  a schema breaks it: a cached answer stays right exactly when the new tree has the same
  element (`ReloadExact`, `ReloadServesStale`).  Neither `DeleteSchema` nor `AddSchema` touches
  the cache.
- *Refused uploads.*  The first message that is not good decides the run whatever follows: for
  a missing name the directory keeps what was written, for a method without hasher (a nil call)
  too, every other refusal leaves it empty (`RunDecided`).
- *`ToPath`.*  It accepts exactly the items that spell the path it returns: each element's
  name followed by its values in the order of the key statement, nothing left over, every
  element found in the index and with all its keys, the last one with all or none
  (`ToPathAccounts`).  The flat form of a schema path is rebuilt exactly unless a last list is
  followed by some but not all of its key values (`ToPathRebuilds`); for all items the code
  reads past them exactly when they spell a keyed path and end in such a name
  (`ToPathOverruns`).  The "unknown PathElement(s)" branch cannot be reached.  The code comments that keys
  are sorted by name; they are in the order of the key statement, so the result is the
  one of `BuildPath` when key statements are alphabetical.
- *Upload.*  The client labels every digest as MD5 whatever method was chosen, so an
  upload is accepted exactly when the chosen method's digests are the MD5 digests
  (`EndToEnd`); with the default method it always is.
- *Leafref texts.*  `NormalizedSpelled` gives the normalised path of every text without
  predicates: each `..`, wherever it stands, leaves out one name of the leaf's own path from the
  end, prefixes are dropped, and a leading slash makes no difference.  A `..` behind a name, which
  the syntax of section 9.9.2 of RFC 7950 does not have, so climbs from the leaf.  A text with unbalanced brackets is taken for the root (`MalformedIsRoot`), whose
  missing type then stops `toSchemaType` (`MalformedHasNoType`).
- *Relative leafrefs.*  `normalizePath` keeps the meaning of `../..` paths inside the leaf's
  own module (`RelativeMeaning`).  The server then asks `GetEntry`, which tries all modules that
  have the first name: it finds the node meant exactly when the leaf's module is the best
  candidate that has the whole path (`RelativeTarget`).  With two modules of the same shape the
  annotation and the leafref type go to the leaf of the other module (`WrongLeaf`).  A climb
  from an entry without parent link is a nil dereference, modelled as no result.
- *Leafref types.*  When all leafrefs resolve, `toSchemaType` comes to an end exactly when
  no chain of leafrefs is circular (`TerminatesExactly`).
- *Failing sides.*  `Witnesses` gives small schemas, for any names, on which each of these
  conditions fails, and shows that the schemas exist.

## Model

| member | source | states |
|---|---|---|
| ModuleOrder.SortModulesABStrictTotal | pkg/utils/path.go:299-324 | the module comparison is irreflexive, transitive and decides between any two distinct names, for every list of deprioritized names |
| ModuleOrder.ModLessIsEarlier | pkg/utils/path.go:299-324 | with the list the server uses: modules whose name holds `ietf` or `iana` come after all others, and within one group the name that is first in dictionary order comes first |
| ModuleOrder.CandidatesIgnoreMapOrder | pkg/schema/object.go:121-133 | whatever order the module map is walked in, the sorted candidates are the same |
| ModuleOrder.FirstHitIsLeast | pkg/schema/object.go:83-89 | trying sorted modules until one succeeds finds the least successful module, and fails only if none succeeds |
| YangTree.StateMeans | pkg/schema/container.go:114-122 | an entry is state if and only if parent links lead from it to an entry that says `config false` |
| YangTree.StateInherited | pkg/schema/container.go:114-122 | every entry below a state entry is state |
| Navigation.GetChildren | pkg/schema/object.go:359-413 | for every map order: exactly the data nodes reached through choices and cases only, each once |
| Navigation.GetEntryFrom | pkg/schema/object.go:162-202 | for every map order: the named descendant, each name below the previous data node, or nothing; no names end at the entry itself, or at the child of its own name for a choice or case |
| Navigation.FindPossibleModules | pkg/schema/object.go:102-133 | the modules that can hold the first path item, or the module of that name, each once and best first |
| Navigation.GetEntry | pkg/schema/object.go:65-100 | the path in the best candidate module that has all of it, or a lone module name; independent of map order |
| Navigation.Reverse | pkg/store/persiststore/persiststore.go:669-673 | the array is reversed in place |
| Navigation.GetEntryPath | pkg/store/persiststore/persiststore.go:646-667 | the names of the data nodes from the module down to the entry |
| Navigation.BuildPathUpFromEntry | pkg/schema/references.go:202-224 | the same names as `getEntryPath`, climbing node by node |
| Navigation.OfferedNamesUnique | pkg/schema/object.go:188-197 | two flattened children with one name are the same node, so the first match is the only one |
| Navigation.UpThenDown | pkg/schema/object.go:162-202 | descending the path that leads up to a node from its module comes back to the node |
| Navigation.DownThenUp | pkg/schema/object.go:162-202 | a node found below a module has exactly the path that found it |
| Navigation.UpDownInverse | pkg/store/persiststore/persiststore.go:646-673 | a path finds a node from a module if and only if it is the node's own path |
| Navigation.PathOfInjective | pkg/store/persiststore/persiststore.go:646-673 | no two data nodes have the same path |
| Navigation.ResolveInModule | pkg/schema/object.go:65-100 | a path that a module has is answered with that module's node if and only if the module is the best candidate with the path; one it lacks is refused if and only if no candidate has it and it is no lone module name |
| Lookups.DescendWritten | pkg/schema/object.go:162-202 | written names, each with or without a prefix, find from a module exactly the node whose path are the module and the names |
| Lookups.DescendSpelled | pkg/schema/object.go:192-197 | from any entry, names written with prefixes find what the names alone find |
| Lookups.GetEntryExact | pkg/schema/object.go:65-133 | a path whose first item names no module is answered from the first module, in the order of `Earlier`, that has the first name directly below it (under the item's prefix if it has one) and a node at the whole path |
| Lookups.GetEntryOfModule | pkg/schema/object.go:94-115 | a path whose first item names a module is answered with the node whose path repeats that name, or with the module itself when the bare name stands alone |
| Lookups.StandardsLast | pkg/utils/path.go:299-324 | no answer comes from a module with `ietf` or `iana` in its name when another module may answer; within one group it comes from the first in dictionary order |
| Witnesses.StandardComesLast | pkg/schema/object.go:129-131 | an input: of two modules with the same container the one that is no standards module answers, whatever the dictionary order |
| Witnesses.StandardAnswer | pkg/schema/object.go:129-131 | the same with the modules `ietf-interfaces` and `openconfig-interfaces` |
| XPath.ParseXPathKeys | pkg/utils/path.go:135-180 | the scanning loop computes the predicate map, or the error of the first offending bracket |
| XPath.ToPathElem | pkg/utils/path.go:112-132 | name and keys are split at the first unescaped bracket that is not at the start |
| XPath.ScanSlashes | pkg/utils/path.go:58-95 | slashes outside brackets become separators; unbalanced text gives nothing |
| XPath.ToPathElems | pkg/utils/path.go:58-109 | the elements of the text, or its first error |
| XPath.ParsePath | pkg/utils/path.go:32-55 | origin detection and the elements of the rest |
| XPath.CollectKeys | pkg/utils/path.go:273-279 | the sorted keys, whatever order the map is walked in |
| XPath.ToXPath | pkg/utils/path.go:262-294 | origin, element names and sorted predicates, separated by slashes |
| XPathRoundTrip.EscapeFacts | pkg/utils/path.go:28 | the replacer gives back every text whose brackets were escaped |
| XPathRoundTrip.EscapedRoundTrip | pkg/utils/path.go:32-180 | written with escaped brackets, the names, keys and values of printable elements (names without slash and bracket, keys and values non-empty) are recovered exactly, if and only if the text does not look like it starts with an origin |
| XPathRoundTrip.PrintThenParse | pkg/utils/path.go:32-180 | for printable elements without brackets in keys and values: parsing what was printed gives the path back if and only if the text does not look like it starts with an origin |
| Witnesses.ColonName | pkg/utils/path.go:32-55 | an input: a first name that ends in a colon is read as an origin |
| XPathRoundTrip.RoundTrip | pkg/utils/path.go:262-294 | for printable elements without brackets in keys and values, with no name ending in a colon and no `:/` in key names and values, parsing inverts printing |
| XPathScanners.ScannersAgree | pkg/utils/path.go:58-180 | text that the outer scanner accepts is refused by the key parser only for a missing `=`, an empty key or an empty value, never for nesting |
| XPathScanners.OriginRoundTrip | pkg/utils/path.go:262-294 | a printed origin is found again if and only if the path has no elements |
| XPathExact.ParseOrigin | pkg/utils/path.go:37-46 | a text that is an origin, a colon, and then nothing or a slash: the origin without its colon, and the elements of what follows |
| XPathExact.ParseNoOrigin | pkg/utils/path.go:37-46 | every other text has no origin and all of it are elements |
| XPathExact.OriginPath | pkg/utils/path.go:32-55 | for every origin and printable elements: the text with `:/` between them gives both back |
| XPathExact.MalformedExactly | pkg/utils/path.go:58-95 | a text is malformed if and only if its unescaped brackets are not balanced and flat |
| XPathExact.NameEnds | pkg/utils/path.go:112-132 | the name of an element ends at its first unescaped opening bracket; an element that starts with it is all name |
| XPathExact.AllName | pkg/utils/path.go:112-132 | an element without unescaped opening bracket is all name |
| XPathExact.OnePredicate | pkg/utils/path.go:135-180 | one more predicate sets its key to its value, both unescaped, or makes the text malformed when no split at the first `=` leaves both non-empty |
| XPathExact.UnbalancedKeys | pkg/utils/path.go:135-180 | predicates that are nested or left open are refused |
| XPathExact.TextIgnored | pkg/utils/path.go:135-180 | text between and after predicates is ignored |
| XPathExact.NamesPrinted | pkg/utils/path.go:262-294 | without keys the printer writes what it writes for the names alone |
| Upload.UploadServer.ReadBack | pkg/server/rpcs.go:182-208 | the read loop feeds the hasher the whole file in order, whatever the sizes of the reads |
| Upload.UploadServer.Receive | pkg/server/rpcs.go:128-241 | one loop iteration changes files, open files and lists as the protocol step says |
| Upload.UploadServer.Serve | pkg/server/rpcs.go:126-242 | the loop computes the run of the whole stream |
| Upload.RunTracks | pkg/server/rpcs.go:128-229 | a run goes on if and only if every message is a good one, and then disk, open files and lists are what the messages alone determine |
| Upload.FinalizeAccepted | pkg/server/rpcs.go:230-237 | finalize is accepted if and only if all messages were good and none left a file without hash; then every file is complete and verified |
| Upload.UploadSafety | pkg/server/rpcs.go:126-242 | in every accepted run each file holds its chunks since creation, matches its last hash, and the lists are the verified names in order |
| Upload.RunDecided | pkg/server/rpcs.go:128-241 | the first message that is not good ends the run whatever follows: a finalize message with nothing pending accepts it, any other is refused for its own reason, and the directory is empty except after a missing name and a method without hasher |
| UploadClient.UploadFile | client/cmd/schema_upload.go:151-188 | the chunk loop sends the data in consecutive pieces and then the hash message |
| UploadClient.ChunkSizes | client/cmd/schema_upload.go:151-172 | no chunk is empty or larger than the upload size, and only the last one may be smaller |
| UploadClient.SendFiles | client/cmd/schema_upload.go:83-96 | the sender's stream is the messages of each file, files in order |
| UploadClient.ChunksArrive | pkg/server/rpcs.go:137-164 | however data is cut into chunks, the open file ends up holding all of it |
| UploadClient.EndToEnd | client/cmd/schema_upload.go:136-190 | for every chunk size and any files with distinct targets: accepted if and only if the digests equal the MD5 digests, and then everything is stored byte for byte; otherwise refused for a wrong hash |
| UploadClient.MD5UploadAccepted | client/cmd/schema_upload.go:133 | with the default method every upload is accepted and delivered |
| UploadClient.SHA256Refused | client/cmd/schema_upload.go:174-186 | an input: an upload under SHA-256 is refused when the digests differ from MD5 |
| KeyCodec.BuildSchemaKey | pkg/store/persiststore/persiststore.go:618-624 | shifting the text up by one byte leaves the prefix byte followed by the text |
| KeyCodec.BuildEntryKey | pkg/store/persiststore/persiststore.go:626-640 | prefix, schema, first name, and the other names behind slashes |
| KeyCodec.EntryKeyInjective | pkg/store/persiststore/persiststore.go:626-640 | for schema keys without colons and without `@` in name and vendor: distinct pairs of schema and path have distinct keys, for paths without colon in the first name and without slash in the others |
| KeyCodec.EntryKeySame | pkg/store/persiststore/persiststore.go:626-640 | within one schema, whatever its key looks like, distinct such paths have distinct keys |
| KeyCodec.PrefixIsSchema | pkg/store/persiststore/persiststore.go:292-300 | for such schema keys: the prefix of one starts an entry key of another if and only if they are the same |
| KeyCodec.ListInvertsBuild | pkg/store/persiststore/persiststore.go:134-147 | listing gives back the stored key if and only if neither name nor vendor holds `@` |
| KeyCodec.SplitExactly | pkg/store/persiststore/persiststore.go:134-147 | a text splits into a key if and only if it is the key's parts with `@` between them and none in name and vendor |
| KeyCodec.SplitAllAppend | pkg/store/persiststore/persiststore.go:134-147 | the listing goes through the record keys in the order in which they come |
| Witnesses.KeyFormat | pkg/store/persiststore/persiststore.go:618-644 | record and entry keys as they are written, byte for byte |
| KeyCodec.SplitAllHas | pkg/store/persiststore/persiststore.go:134-147 | listing gives exactly the schema keys that some record key splits into |
| KeyCodec.RecordPrefix | pkg/store/persiststore/persiststore.go:292-304 | for such schema keys: one record key starts another if and only if name and vendor agree and the one version starts the other |
| KeyCodec.DeletingTakesLongerVersions | pkg/store/persiststore/persiststore.go:292-304 | a concrete pair of schemas: deleting version 1 removes the record of version 10 |
| SchemaElems.Classify | pkg/schema/container.go:60-91 | the loop sorts children into keys, leaves, leaf-lists and directories by their role |
| SchemaElems.KeySort | pkg/schema/container.go:94-96 | sorting found keys by their place in the key statement restores the statement |
| SchemaElems.SchemaElemFromEntry | pkg/schema/object.go:30-63 | the element describes the entry: keys in statement order, children sorted, leaves and leaf-lists exactly those among the flattened children, each once |
| SchemaElems.ElementSays | pkg/schema/container.go:29-112 | field by field: kind, name, state, description, keys in statement order, exactly the leaves and leaf-lists whose nearest data ancestor is the entry, and the names of the containers and lists in dictionary order |
| SchemaElems.ElemExists | pkg/schema/object.go:30-63 | every entry of a schema tree has an element |
| StoreIndex.KeyPresent | pkg/store/persiststore/persiststore.go:803-823 | an entry key below a module is in the database if and only if the tree has that node, and holds its element |
| StoreIndex.LookupFindsIndexNode | pkg/store/persiststore/persiststore.go:782-830 | on every path of plain names, a module name at the start or not: the loop over sorted modules answers with the node in the best module that has the path |
| StoreIndex.WalksAgree | pkg/schema/object.go:65-133 | on plain paths that start with no module name: index node and tree node agree if and only if there is no index node or its first name is a direct entry of the module |
| Witnesses.TopChoiceSplits | pkg/schema/object.go:121-125 | an input: a leaf in a choice directly below a module is in the index and not found by `GetEntry` |
| StoreIndex.IndexRefinesTree | pkg/store/persiststore/persiststore.go:734-840 | without top-level choices, on every plain path that starts with no module name the index answers with the element stored for exactly the node `GetEntry` finds, and fails exactly when it fails |
| StoreIndex.ModuleStartAgrees | pkg/store/persiststore/persiststore.go:801-830 | on a path that starts with a module name, index node and tree node agree if and only if the module has nothing at the whole path and either the name stands alone and its module is the best with an entry of that name, or there is no index node |
| Witnesses.ModuleNameSplits | pkg/store/persiststore/persiststore.go:803-823 | an input: a leaf after its module's name is in the index and not found by `GetEntry` |
| Lookups.IndexExact | pkg/store/persiststore/persiststore.go:782-830 | the index node is the node at the path in the first module, in the order of `Earlier`, that has it |
| Lookups.LookupExact | pkg/store/persiststore/persiststore.go:734-840 | a path of plain names is answered, with what the schema says about the node, from the first module that has it, and refused if and only if none has |
| Lookups.LookupInModule | pkg/store/persiststore/persiststore.go:782-830 | with a module in front of the first name, the answer is the node at that path of that module, whatever other modules have |
| Lookups.LookupRoot | pkg/store/persiststore/persiststore.go:756-781 | the empty path is answered with the root |
| StoreRuns.SplitJoined | pkg/store/persiststore/persiststore.go:735-739 | the cache key determines the path when names have no slash |
| StoreRuns.StepTransparent | pkg/store/persiststore/persiststore.go:734-840 | every lookup, eviction, deletion and guarded addition keeps cached elements equal to what the database answers |
| StoreRuns.CacheTransparency | pkg/store/persiststore/persiststore.go:734-840 | the same over every run from an empty cache |
| StoreRuns.HitLikeMiss | pkg/store/persiststore/persiststore.go:740-753 | a hit and a miss have the same kind, name, state, keys, leaves, leaf-lists and children; the description is that of the miss, or empty exactly when the cache keeps descriptions and the request asks for none |
| StoreRuns.RootNeverCached | pkg/store/persiststore/persiststore.go:756-781 | no run ever caches the root |
| StoreRuns.DeleteExact | pkg/store/persiststore/persiststore.go:279-305 | among schema keys without colons and without `@` in name and vendor: deletion drops exactly the schema's own entries, and the record of a schema if and only if name and vendor agree and its version starts with the deleted one |
| StoreRuns.DeleteOrphans | pkg/store/persiststore/persiststore.go:279-305 | among such schema keys: a longer version loses its record and keeps all its entries |
| StoreReload.TreeIsStorable | pkg/store/persiststore/persiststore.go:307-338 | for every tree there is a database that holds exactly its elements and the record |
| StoreReload.AdditionGuardExact | pkg/store/persiststore/persiststore.go:307-338 | when no entries of a key are stored, the addition of every tree keeps the cache transparent if and only if no cached element of that key is alive |
| StoreReload.ReloadExact | pkg/store/persiststore/persiststore.go:243-277 | after lookup, deletion and the addition of any tree, the answer is what is stored if and only if the new tree has the same element |
| Witnesses.ReloadServesStale | pkg/store/persiststore/persiststore.go:243-277 | an input: after a reload that changes a leaf's description the store answers with the old leaf |
| StoreReload.OldAnswerStays | pkg/store/persiststore/persiststore.go:243-277 | whatever is added after a deletion, a cached answer stays what it was |
| SchemaPaths.ToStrings | pkg/utils/path.go:193-216 | every name followed by its values in the order of the key names, or names alone |
| SchemaPaths.CollectVals | pkg/utils/path.go:218-236 | the values in the order of their sorted keys, whatever the map order |
| SchemaPaths.ValsByKey | pkg/utils/path.go:218-236 | the values of a flattened element come in the dictionary order of its key names |
| SchemaPaths.ElemsStrings | pkg/utils/path.go:193-236 | flattening the keyed path of a schema path gives names and values in order |
| SchemaPaths.FitsIsKeyed | pkg/schema/object.go:270-284 | attaching the flattened values to the sorted keys restores an element if and only if its keys are the first ones; only a last list can have others |
| SchemaPaths.ValidPathIsElems | pkg/utils/path.go:193-236 | every valid keyed path flattens to the items of its steps, and is the path the values alone give if and only if the keys of its last element are the first ones |
| PathBuilder.SearchCases | pkg/schema/object.go:293-306 | for every map order: the node of that name in a case of the choice |
| PathBuilder.FindChoiceCase | pkg/schema/object.go:561-584 | for every map order: the node of that name one choice below the entry |
| PathBuilder.BuildPathFrom | pkg/schema/object.go:245-357 | the recursion appends exactly the elements of the specification, or fails as it does |
| PathBuilderInverse.BuildPath | pkg/schema/object.go:204-243 | every result is one the specification allows: module given as prefix or name, or any module that has the first name |
| OwnNames.ExtraNever | pkg/schema/object.go:325-328 | an item too many is never made up for: when the first items repeat the entry's name, the result never flattens to the items after them |
| OwnNames.CaseStep | pkg/schema/object.go:307-316 | a case adds no element and hands the items on to the child the next one names, or to the child of its own name |
| Flattening.FlattenBack | pkg/schema/object.go:245-357 | for all items: whatever `buildPath` accepts flattens to the items if and only if they are read back (`ReadBack`): past no container with a data child of its own name, and past one with a choice of its own name only where nothing is lost |
| Flattening.ReadsLate | pkg/schema/object.go:293-306 | the same for an entry whose name was used up before it was entered: its name and the items come out if and only if `ReadLate` holds |
| Flattening.MixedNever | pkg/schema/object.go:293-323 | when items of two kinds were lost, the result never flattens to them and the rest, for all items |
| PathBuilderInverse.BuildThenFlatten | pkg/schema/object.go:204-357 | whatever `BuildPath` builds in a module flattens to the input if and only if the first item has the prefix of a module or is a plain name that is no module, and the items are read back in that module |
| PathBuilderInverse.BuildFlat | pkg/schema/object.go:245-357 | the items of a keyed path are built into that path if and only if they can be read by name and the keys of its last element are the first ones, whatever containers have children of their own name |
| PathBuilderInverse.BuildUnnamed | pkg/schema/object.go:293-306 | the same for an entry entered through a choice that used up its name |
| PathBuilderInverse.OwnFreeBuild | pkg/schema/object.go:245-357 | on paths without containers with a child of their own name: built if and only if no step crosses more than one choice, and refused otherwise |
| PathBuilderInverse.FlattenThenBuild | pkg/schema/object.go:204-357 | `BuildPath` after `ToStrings` on any valid keyed path: never given back when the first name is a module name; otherwise the walk through its module gives it back if and only if its items can be read by name and the keys of a last list are the first ones, and that decides every result when the module alone has the first name |
| PathBuilderInverse.FlattenThenBuildShared | pkg/schema/object.go:225-240 | when all modules with the first name have the path: always given back if and only if each of them gives it back, possibly given back if and only if one does |
| PathBuilderInverse.FlattenThenBuildPrefixed | pkg/schema/object.go:217-233 | the same when the first item carries its module, whatever other modules define |
| Witnesses.OwnNamedRefused | pkg/schema/object.go:317-323 | an input: a child of a container that also has a choice of its own name is refused although it is in the container's `Dir` |
| Witnesses.OwnNamedLosesKey | pkg/schema/object.go:293-306 | an input: on the path through such a choice to a list the key value is lost |
| Witnesses.OwnNamedDropsValue | pkg/schema/object.go:293-306 | an input: accepted items that start properly and do not come back |
| Witnesses.UnknownPrefixDropped | pkg/schema/object.go:212-240 | an input: a prefix that is no module is accepted and dropped |
| Witnesses.SecondKeyMoves | pkg/schema/object.go:264-288 | an input: the last element `l[b=v]` comes back as `l[a=v]` |
| Witnesses.NestedChoiceRefused | pkg/schema/object.go:561-584 | an input: a data path over a choice in a choice is refused |
| StorePaths.StaysInModule | pkg/store/persiststore/persiststore.go:571-606 | the index is prefix-closed: below the node it answers with, it stays in the same module |
| StorePaths.ToPathRebuilds | pkg/store/persiststore/persiststore.go:403-468 | a flat path is rebuilt exactly, keys in statement order, unless a last list has some but not all values, where it reads past the items |
| Witnesses.OneOfTwoValues | pkg/store/persiststore/persiststore.go:435-441 | an input: with one of two key values the loop reads past the items |
| StorePaths.AlphabeticalAgrees | pkg/store/persiststore/persiststore.go:434-442 | with alphabetical key statements, statement order is sorted order |
| StoreItems.ToPathAccounts | pkg/store/persiststore/persiststore.go:403-468 | for all items: the loop returns a path if and only if the items are, in order, each element's name followed by its values in statement order, and every element is found and has all its keys, the last one all or none; so every item is used once and none is left over |
| StoreItems.ToPathOverruns | pkg/store/persiststore/persiststore.go:435-441 | for all items: the loop reads past them if and only if they spell a keyed path and end in a name with some but too few values |
| StoreAgreement.FirstModuleAnswers | pkg/store/persiststore/persiststore.go:782-830 | without top-level choices, a name is answered from a module that has it if and only if that module is the first in order to have it, the module of that name counted in |
| StoreAgreement.ToPathAgreesWithBuildPath | pkg/store/persiststore/persiststore.go:393-469 | for a path in the module tried first for its first name: `ToPath` and `BuildPath` each give it back under their own exact condition; where `ToPath` does, only the reading by name decides for the tree walk through that module |
| PersistStore.AddSchemaElem | pkg/store/persiststore/persiststore.go:571-606 | the batch receives an element for exactly the data nodes of the subtree |
| PersistStore.PersistStore.AddSchema | pkg/store/persiststore/persiststore.go:307-338 | afterwards the record is the configuration, and the database holds the tree if no entries of the key were left over |
| PersistStore.PersistStore.DeleteSchema | pkg/store/persiststore/persiststore.go:279-305 | the error cases, and otherwise exactly the two prefix drops |
| PersistStore.RecordsAscend | pkg/store/persiststore/persiststore.go:124-154 | the keys that are listed are those that start with the byte 1, in byte order |
| PersistStore.PersistStore.ListSchema | pkg/store/persiststore/persiststore.go:124-154 | the schema keys of the record keys in key order, those that do not split left out |
| PersistStore.PersistStore.SearchModules | pkg/store/persiststore/persiststore.go:801-830 | the loop finds the element in the first module of the list that has the key |
| PersistStore.PersistStore.GetElem | pkg/store/persiststore/persiststore.go:734-840 | the answer of cache or database, and the cache afterwards |
| PersistStore.PersistStore.GetSchema | pkg/store/persiststore/persiststore.go:97-107 | refused for schemas without record, otherwise as `getSchema`; from a transparent cache, field by field what the database holds, up to the description |
| PersistStore.PersistStore.TakeKeys | pkg/store/persiststore/persiststore.go:434-442 | the items after a list name go to its keys in order, or run out |
| PersistStore.PersistStore.ToPath | pkg/store/persiststore/persiststore.go:393-469 | the loop computes the specification `ToPathRest`, about which `ToPathAccounts` says what happens to the items |
| PersistStore.PersistStore.ExpandPath | pkg/store/persiststore/persiststore.go:471-545 | for a path of plain names exactly the non-key leaves and leaf-lists below the index node, each once, for configuration those with no `config false` at or above them, for state those with one, or the path itself for such a leaf; refused exactly without a node |
| StoreExpand.LookupFound | pkg/store/persiststore/persiststore.go:734-840 | what a lookup finds is the element of a node, and its path is no longer than the tree is large, so expansion ends |
| StoreExpand.PathBelowLeads | pkg/schema/expand.go:61-142 | the elements of a result spell the path of the target, and each stands for the node at its place, lists with all keys a star |
| StoreExpand.LeavesCovered | pkg/store/persiststore/persiststore.go:502-519 | the wanted fields, or leaf-lists, of an element give the paths of exactly the leaf targets directly below its node |
| StoreExpand.AllCovered | pkg/store/persiststore/persiststore.go:502-538 | fields, leaf-lists and children together give all targets below the node, each once |
| StoreExpand.ExpansionsAgree | pkg/store/persiststore/persiststore.go:471-568 | the suffixes the store produces below a node are, as a multiset, the paths `getPathElems` produces |
| Expand.GetPathElems | pkg/schema/expand.go:61-142 | for every map order: the path of every leaf and leaf-list below the entry that is no list key, each once; for configuration those with no `config false` at or above them, for state those with one |
| Expand.ExpandEntry | pkg/schema/expand.go:36-58 | the same for the children of a container or list; a leaf gives the path itself whatever the data type, a leaf-list nothing |
| Expand.AllIsConfigPlusState | pkg/schema/expand.go:74-101 | as multisets, all data is configuration plus state |
| Expand.ExpansionDistinct | pkg/schema/expand.go:61-142 | no two targets have the same path |
| Expand.KeysAreStars | pkg/schema/expand.go:102-125 | every element of a result stands for a node on the way to its target, lists with all keys a star, everything else without keys |
| References.ClimbStep | pkg/schema/references.go:159-165 | one `..` reaches the next data node above, or dereferences a missing parent |
| References.RelativeToAbsPath | pkg/schema/references.go:150-180 | the names of the node climbed to, followed by the remaining names |
| References.NormalizePath | pkg/schema/references.go:77-92 | the absolute names of a leafref text without prefixes |
| References.NormalizedSpelled | pkg/schema/references.go:77-180 | for every text without predicates: each `..` leaves out one name of the leaf's own path from the end, the other steps follow without their prefixes; no result only when there are more `..` than names above |
| Witnesses.PrefixedLeafref | pkg/schema/references.go:85-89 | an input: an absolute text with prefixes at its names keeps the names |
| References.MalformedIsRoot | pkg/schema/references.go:77-92 | a text with unbalanced brackets is resolved to the root |
| References.RelativeMeaning | pkg/schema/references.go:77-180 | for any number of leading `..`: descending the normalised path from the leaf's own module reaches exactly the node found by climbing and then descending the names |
| References.RelativeTarget | pkg/schema/references.go:45-52 | looking a relative leafref up with `GetEntry` finds the node meant if and only if the leaf's module is the best candidate that has the path |
| Witnesses.WrongLeaf | pkg/schema/references.go:45-52 | an input: with two modules of one shape a relative leafref is resolved to the leaf of the other module |
| References.AbsoluteMeaning | pkg/schema/references.go:77-92 | an absolute leafref path keeps its names and loses its prefixes |
| Annotation.FullPathInjective | pkg/schema/references.go:59 | the path under which a leafref is filed identifies its entry, so no annotation overwrites another |
| Witnesses.RefFormat | pkg/schema/references.go:59 | the name a leafref is filed under, as it is written |
| Annotation.AnnotatedTree.BuildReferences | pkg/schema/references.go:41-75 | the recursion adds exactly the annotations of the configuration leafrefs in the subtree, or one of them has no target |
| Annotation.AnnotatedTree.BuildAll | pkg/schema/references.go:28-39 | succeeds if and only if every configuration leafref has a target, and then each entry carries exactly the leafrefs that resolve to it |
| LeafTypes.LeafrefTarget | pkg/schema/leaf.go:144-150 | the typed entry the leafref text leads to, or that it is missing or has no type |
| LeafTypes.ToSchemaType | pkg/schema/leaf.go:75-158 | the recursion computes the conversion, terminating by the number of leafrefs left and the size of the type |
| LeafTypes.ConvertExact | pkg/schema/leaf.go:75-158 | the conversion returns a type if and only if that type describes the leaf's type, leafrefs followed to their targets |
| LeafTypes.FailureHasCause | pkg/schema/leaf.go:119-155 | a conversion is refused only because a chain of leafrefs leads to one that names no entry, and runs into a nil pointer only because one climbs past the top or leads to an entry without type |
| LeafTypes.FirstMemberDecides | pkg/schema/leaf.go:124-131 | a union fails as its first member that does not succeed |
| LeafTypes.MalformedHasNoType | pkg/schema/leaf.go:144-154 | a leafref text with unbalanced brackets leads to the root, which has no type |
| LeafTypes.TerminatesExactly | pkg/schema/leaf.go:119-155 | when every leafref resolves, the conversion ends if and only if no chain of leafrefs is circular, and then it succeeds |
| Witnesses.SelfReferenceRuns | pkg/schema/leaf.go:144-154 | an input: the type of a leaf that refers to itself is never converted |
| LeafTypes.AcyclicTerminates | pkg/schema/leaf.go:119-155 | without a circular chain it ends after at most as many leafrefs as there are entries, resolved or not |
| LeafTypes.FollowEnds | pkg/schema/leaf.go:151 | following `LeafrefTargetType` from any result ends at the type of the leaf where the leafrefs end, which is no leafref |
| LeafTypes.LeafTypeOf | pkg/schema/leaf.go:28-72 | the type stored for a leaf without circular chain: accepted if and only if the type can be described, and then it describes it |

## Left out

- goyang parsing, badger, ttlcache, protobuf and JSON encoding are libraries: a given tree, a map with prefix drop, a map with arbitrary eviction, and an injective codec stand for them.  `Entry.Path` of goyang is modelled as the names up to the top, choice and case included.
- gRPC serving, TLS, metrics, configuration loading, command-line handling other than the chunk loop, file-system walking and glob matching.
- File I/O errors; joining a file name to the schema directory is a function parameter, so names that climb out of the directory are not modelled, and digests are an uninterpreted function of method and bytes.
- Locks, contexts, channels, value-log garbage collection and the cache's expiry times.
- Notifications, RPC input and output, anydata and anyxml nodes: the tree has containers, lists, leaves, leaf-lists, choices and cases.
- Invalid UTF-8: text is code points, and indices count code points where the code counts bytes.
- Prefixed first items in the agreement of index and tree: the tree walk reads the prefix as a YANG prefix, the index as a module name; `GetEntryExact` and `LookupInModule` say what each of them answers.
- `relativeToAbsPathKeys` and `populatePathKeys`: predicate values are dropped before lookup, and key filling does not skip choice and case.
- `sortFn`, the in-memory store, `GetEntryCh`, `GetSchemaElements`, `CompletePath`, `ToStrings` with target and origin, the `xpath` form of `ExpandPath`.
- Other attributes of stored elements: `must`, defaults, ranges, patterns, prefixes, mandatory children, choice information; leaf types are modelled apart from the elements, so adding a schema never fails for an unresolvable leafref.
- `CreateSchema` and `ReloadSchema` as wrappers of parsing, deletion and addition; `ReloadSchema` appears as the run of `ReloadServesStale`.
- FindPossibleModules: only the call at the root, which is the only one the modelled code makes.
- SchemaElemFromEntry: always with descriptions, as the store asks for it.
- BuildPathFrom: the path that the code extends in place is a returned sequence, so a partly extended path after a failure is not observed.
- ExpandEntry: the keys that `populatePathKeys` fills into the request path.  On a leaf and a leaf-list the store differs from it: it filters both by data type.
- ExpandPath: request names hold no slash, and the result is stated for paths of plain names, not for the root or names with a prefix; the cached response object that the code returns without copying on a miss is a value here.
- ToPath: the result is stated for a transparent cache, schema keys that the key format can carry, and names without slash; an index past the items is an error value here and a panic in the code.
- A climb past the top is an error value here and a panic in the code.
- `toSchemaType` for identityrefs, enumerations, bits, ranges and lengths copies library data and is not modelled.
