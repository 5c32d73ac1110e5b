# A verified model of FSAL_S3

FSAL_S3 presents a hierarchical file system on top of a flat object store.  Directories and files are
objects whose keys are built from names, attributes travel as string dictionaries, and directories are
recovered by prefix-and-delimiter listings.  This project models that machinery in Dafny and proves
that the store refines a tree of names over whole runs.

| file | models |
|---|---|
| `CText.dfy` | C strings, byte order, `basename` (IEEE Std 1003.1) |
| `Decimal.dfy` | the `printf` and `scanf` conversions in use: `%llu`, `%zu`, `%u`, `%d`, `%ld.%ld` |
| `DecimalText.dfy` | what printed texts look like, and what scanning makes of other texts |
| `CloudStructures.dfy` | `cloud_structures.c`: the 13-entry dictionary, searched and overwritten in place |
| `Attributes.dfy`, `AttributeLaws.dfy` | `fsal_cloud.h`: masked encoder, order-insensitive decoder, and their laws |
| `PathTokenizer.dfy` | `common.c`: the cursor of `get_next_path_component` |
| `Namespace.dfy` | keys of tree nodes, and the way back through the tokenizer |
| `Listing.dfy` | the Prefix/Delimiter listing of ListObjects (Version 1, Amazon S3 API Reference) on tree keys |
| `ListAccumulator.dfy`, `BatchLaws.dfy` | `listBucketCallback` and its runs |
| `Connector.dfy`, `ConnectorLaws.dfy` | `s3_connector.c`: the gate, the callbacks, chunked transfer |
| `FileSystem.dfy` | `handle.c`: the operations, on a connector and handles |
| `Runs.dfy`, `RunLaws.dfy` | traces of operations, the refinement, and what holds after every run |

Main results, hardest first:

- `Runs.Simulation`: after any run from the exported root, the flat store of texts refines the tree of
  attribute records that the same operations build.  `RunLaws.DirectoryListing`, `CreateThenLookup`,
  `NamespaceInvariant` and `HandleKeys` are read off it.
- `RunLaws.DeliveryIsExact`: exactly which splits of a directory listing the `object_count == 0` sentinel
  handles.
- `AttributeLaws.AttributeRoundTrip` and `OrderCannotBeObserved`: the dictionary codec, down to digits.
  `Attributes.RefillWrites`, `AttributeLaws.DecodeReads` and `NewInFull` say the same name by name with the
  stored texts, and `DecimalText.PrintTimeIsOnly` that these are the only texts of their shape.
- `PathTokenizer.TokenizerIsExact` and `Namespace.TokensOfKey`: tokenizing undoes key construction.

How the store and the environment appear: a bucket is a map from keys to objects, and an object's
metadata is a map, so a response may list the pairs in any order and a download may be cut anywhere.
The clock, the batches of a listing, the upload buffers and the directory callback are parameters.

Where the code differs from what its comments or names suggest, the model follows the code:

- `eof` is set even when the callback stops early, although it is documented as the end of the directory.
- `s3_get_object` has no state gate; all other operations have one.
- With the connector down, `cloud_create` and `cloud_makedir` still return a handle, to an object that is
  not stored.
- A file created without `ATTR_TYPE` in the mask is typed as a directory (`RunLaws.CreatedType`).
- Default file ids are the oid text, which reads back as 0 for every object
  (`AttributeLaws.OidReadsAsZero`), CHGTIME is reported as MTIME in the mask, and SPACEUSED is written
  but never read.
- When an object is missing, the local dictionary keeps null names and the code that scans them does not
  return; the model says `null` or `Fault`.  `exit(0)` on an unsupported type is `null` or `Exited`.

Two natural properties are false of the code, and each is settled with its exact condition: batch
independence (`DeliveryIsExact` and `BatchIndependence`, smallest input `LostName`) and faithful upload
(`UploadIsFaithful`, input `SeveralBuffers`).

## Model

| member | source | states |
|---|---|---|
| `Runs.Simulation` | handle.c:110-182 | For every run of mkdir, create, lookup and setattrs from the exported root, the bucket holds exactly the keys of the tree the run builds, each object's texts decode to the attributes of its node, and every live handle has its object |
| `Runs.StepRefines` | handle.c:323-341 | One operation on the flat store is one operation on the tree |
| `Runs.Perform` | handle.c:426-451 | Performing any operation through the operation table changes the bucket as one step of a run while the connector is up and not at all while it is down; an allowed one makes exactly the handle of the step, with the stored attributes |
| `Runs.Export` | cli/create_export.c:21-34 | Exporting into an empty bucket and looking up the root gives the start of every run |
| `RunLaws.DirectoryListing` | handle.c:233-265 | After any run, reading a directory handle collects, as a multiset, the files and the directories that the run created under that handle, each once for each kind: no grandchild, not the directory itself, nothing missing, for every well-batched delivery |
| `RunLaws.DeliveryIsExact` | cloud_connector/plugin/s3_connector/s3_connector.c:209-227 | After any run, a delivery of a directory's listing whose first entries include a content makes the array hold the children, each once for each kind, if and only if it is well batched |
| `RunLaws.FileHandleListing` | handle.c:245-251 | After any run, reading through the handle of a file with a name of one byte collects the children of the directory that the file is in |
| `RunLaws.OrderedDelivery` | cloud_connector/plugin/s3_connector/s3_connector.c:212-213 | After any run, a delivery in byte order has a content in its first nonempty batch, because the directory's own key is the least of its listing |
| `RunLaws.ListedChildren` | handle.c:245-254 | After any run, the listing of a directory handle is its own key first, then exactly the files created under it, and as common prefixes exactly the directories created under it |
| `RunLaws.ReadDirectory` | handle.c:233-265 | After any run, a callback that always accepts is given the children, each once for each kind, if there are at most 100, and otherwise the array overruns |
| `RunLaws.DirectoryFits` | cloud_connector/plugin/s3_connector/s3_connector.c:215 | After any run, a well-batched delivery for a directory handle stays inside the 100 slots exactly when the run created at most 100 files and directories under it |
| `RunLaws.NamespaceInvariant` | handle.c:110-182 | After any run every non-root key is a child of a stored directory key, every live oid is stored, and every object carries exactly the 13 names with readable texts |
| `RunLaws.NothingDisappears` | handle.c:323-358 | No step of a run removes a key or takes back a handle |
| `RunLaws.TypeMatchesKey` | handle.c:152-182 | When types are passed as meant, the stored type is DIRECTORY exactly for keys that end in '/' |
| `RunLaws.CreatedType` | handle.c:124-125 | A created object is a regular file exactly when ATTR_TYPE is in the mask and asks for one |
| `RunLaws.CreateThenLookup` | handle.c:69-98 | After creating a file and any later run that does not create it anew, the key looked up is stored, empty, with the creation attributes under exactly the setattrs calls on that oid |
| `RunLaws.AttributesKept` | handle.c:323-341 | Along any run, an object's attributes change only by the setattrs calls on its own oid, and its data not at all |
| `RunLaws.SetattrsMerge` | handle.c:323-341 | Any series of setattrs on one handle leaves the same bucket, text for text, as one call with masks united and later values winning |
| `RunLaws.SetattrsIdempotent` | handle.c:323-341 | Repeating a setattrs call changes nothing |
| `RunLaws.MergeAllowed` | fsal_cloud.h:63-77 | The merged list of allowed lists is itself allowed |
| `RunLaws.LookupFindsFiles` | handle.c:78 | A lookup finds something exactly when a file of that name was created under the handle; directories are not found |
| `RunLaws.HandleKeys` | handle.c:360-381 | The oids of two live handles, which are the bytes of key and digest, are equal exactly when the handles stand for the same chain of names and kind, which the tokenizer recovers |
| `RunLaws.KeyMeetsDigest` | handle.c:360-381 | After any run, the key of one handle and the digest of another hold the same bytes exactly when both handles stand for one place in the tree |
| `RunLaws.MadeHandle` | handle.c:161 | The oid of a new object stands for its parent's chain extended by the name |
| `FileSystem.CloudLookup` | handle.c:69-98 | Returns the handle of parent oid plus name with the attributes read from its texts entry by entry, type DIRECTORY exactly for "1" under "0", or none when that key is not stored |
| `FileSystem.CloudLookupPath` | handle.c:391-416 | Returns the root handle whatever the path, its attributes read entry by entry |
| `FileSystem.CloudCreate` | handle.c:110-140 | Stores an empty object with the refilled directory defaults under parent oid plus name, touches no other key; the 13 names and texts are stated literally ("0" under "0" exactly when the mask asks for a regular file, else "1"; unmasked times as seconds, '.', nanoseconds of the clock); returns its decoded handle; exits without storing for an unsupported type |
| `FileSystem.CloudMakedir` | handle.c:152-182 | The same, with the same literal names and texts, under parent oid, name and '/' |
| `FileSystem.CloudGetattrs` | handle.c:296-313 | Overwrites the handle's attributes with the decoded ones of its object, adding to the mask; each field is read from its own name, and SPACEUSED follows "1" |
| `FileSystem.CloudSetattrs` | handle.c:323-341 | Writes the printed field of every masked entry, space used under "12" included, keeps every other entry, the data, every other object and the set of keys |
| `FileSystem.CloudReadDirents` | handle.c:233-265 | Gives the callback the collected names in order up to the first it declines; eof in any case; a listing that overruns the slots is a fault |
| `FileSystem.CloudHandleDigest` | handle.c:360-373 | Copies exactly the bytes of the oid, which are the bytes of the key, and nothing behind them |
| `FileSystem.CreateExport` | cli/create_export.c:21-34 | Stores the empty root directory object with the 13 default texts, type "1" and its own oid as file id |
| `Listing.SelfKeyIsFirst` | cloud_connector/plugin/s3_connector/s3_connector.c:212-224 | In any listing of a stored directory its own key is present, first, and strictly below every other key with that prefix |
| `Listing.FilesOfDirectory` | cloud_connector/plugin/s3_connector/s3_connector.c:222-224 | The base names of the contents without the first are the files of the directory, each once |
| `Listing.SubdirectoriesOfDirectory` | cloud_connector/plugin/s3_connector/s3_connector.c:225-227 | The base names of the common prefixes are the subdirectories, each once |
| `Listing.RolledNode` | cloud_connector/plugin/s3_connector/s3_connector.c:490 | A key deeper in the tree rolls up to the key of one subdirectory, and that exists |
| `Listing.ListingExists` | cloud_connector/plugin/s3_connector/s3_connector.c:490 | Every set of keys has a listing under every prefix |
| `CText.BasenameOfChild` | cloud_connector/plugin/s3_connector/s3_connector.c:223-226 | `basename` of either key shape of a child is its name |
| `CText.BasenameIs` | cloud_connector/plugin/s3_connector/s3_connector.c:223-226 | `basename` of any path with a nonempty last piece is that piece, trailing slashes or not |
| `ListAccumulator.ObjectList.ListBucketCallback` | cloud_connector/plugin/s3_connector/s3_connector.c:196-230 | One batch turns the names below the count into exactly the specified ones, for first, later and empty batches, and overruns exactly when it needs more than 100 slots |
| `ListAccumulator.AppendNames` | cloud_connector/plugin/s3_connector/s3_connector.c:222-227 | A copy loop appends the base names to the filled slots and keeps those, overrunning exactly when they do not fit |
| `BatchLaws.BatchIndependence` | cloud_connector/plugin/s3_connector/s3_connector.c:209-227 | The array ends up as all base names in order of arrival minus the first if the split is well batched, and for no other split whose common prefixes have distinct names |
| `BatchLaws.LostName` | cloud_connector/plugin/s3_connector/s3_connector.c:212-216 | When the directory's own key arrives alone, the first name of the next batch is lost |
| `BatchLaws.NamesLost` | cloud_connector/plugin/s3_connector/s3_connector.c:209-220 | A split with a content in its first nonempty batch that is not well batched ends with too few names, not just misplaced ones |
| `BatchLaws.LastPrefixLost` | cloud_connector/plugin/s3_connector/s3_connector.c:216-220 | A first batch of common prefixes only needs a slot for each and, if no later batch is empty, loses exactly its last name |
| `BatchLaws.EmptyBatchForgets` | cloud_connector/plugin/s3_connector/s3_connector.c:209-220 | An empty batch drops all names collected before it |
| `BatchLaws.FitsExactly` | cloud_connector/plugin/s3_connector/s3_connector.c:215 | A well-batched listing stays within the array exactly when it has at most 100 names besides the first |
| `BatchLaws.WantedNames` | cloud_connector/plugin/s3_connector/s3_connector.c:222-227 | The names wanted are those of the other contents and of the prefixes, with multiplicity |
| `BatchLaws.RunLength` | cloud_connector/plugin/s3_connector/s3_connector.c:209-220 | The callback never counts more than it was given, and one less from an empty start |
| `AttributeLaws.AttributeRoundTrip` | fsal_cloud.h:59-218 | Encoding under a mask and decoding gives the masked fields from the list and the rest from the dictionary, with the space used following the size, for every complete dictionary and every list whose masked mode fits an int |
| `AttributeLaws.OrderCannotBeObserved` | fsal_cloud.h:141-217 | Permuting the entries changes neither attributes nor type nor mask |
| `AttributeLaws.DecodeReads` | fsal_cloud.h:141-217 | From a complete dictionary the type is DIRECTORY exactly when "0" holds "1", each number and time is scanned from its own literal name, the space used follows "1" and not "12", and the mask gains twelve bits |
| `AttributeLaws.UnreadableName` | fsal_cloud.h:142-143 | An entry whose name does not scan is read under the name of the entry before it |
| `AttributeLaws.UnknownIndex` | fsal_cloud.h:144-215 | An index outside the 13 changes no field |
| `AttributeLaws.FillListed` | fsal_cloud.h:132-218 | For the 13 entries in any order the loop computes the decoding of the map, and the handle's type follows |
| `AttributeLaws.DecodeUpdate` | fsal_cloud.h:143-216 | Reading one more entry is one round of the switch |
| `AttributeLaws.WellFormedBits` | fsal_cloud.h:149-208 | Decoding a complete dictionary switches on a fixed mask, without CHGTIME |
| `AttributeLaws.OidReadsAsZero` | cloud_structures/cloud_structures.c:33-35 | The default file id of every object reads back as 0 |
| `AttributeLaws.DefaultsReadable` | cloud_structures/cloud_structures.c:11-79 | The default dictionary decodes to the default attributes whatever the handle held before |
| `AttributeLaws.NewInFull` | handle.c:124-125 | Name by name and text by text, the dictionary of a new object under any list and clock |
| `AttributeLaws.RefillReadable` | handle.c:335-338 | Refilling keeps a dictionary readable and overlays its attributes |
| `AttributeLaws.RefillTwice` | fsal_cloud.h:59-130 | Two encodings are one encoding of the merged list, text for text |
| `AttributeLaws.RefillIdempotent` | fsal_cloud.h:59-130 | Encoding the same list again changes nothing |
| `Attributes.RefillWrites` | fsal_cloud.h:59-130 | Under each of the eleven literal names stands the printed field if its bit is in the mask and the old text if not, SPACEUSED under "12" included, and no other name is touched |
| `Attributes.RefillMetadata` | fsal_cloud.h:59-130 | Writes the printed fields under the literal names of exactly the masked entries, in place, or exits before any update for an unsupported type |
| `Attributes.FillAttrlist` | fsal_cloud.h:132-218 | Runs the switch over all entries, keeping the previous index for a name that does not scan |
| `CloudStructures.SetDefaultMetadata` | cloud_structures/cloud_structures.c:11-79 | Lists the 13 default entries, each once, with the literal names and texts |
| `CloudStructures.DefaultsInFull` | cloud_structures/cloud_structures.c:11-79 | The defaults are type "0" or "1", size, fsid and space used "0", the file id as passed, mode "493", "2" links, owner and group "1000", and one time text four times, under the names "0" to "12" |
| `CloudStructures.TypeTexts` | cloud_structures/cloud_structures.h:34-37 | A regular file is "0" and a directory "1" |
| `CloudStructures.ReplaceMetadataValue` | cloud_structures/cloud_structures.c:81-95 | Overwrites the first entry of the name and nothing else; an unknown name changes nothing |
| `CloudStructures.GetMetadataValue` | cloud_structures/cloud_structures.c:97-110 | Returns the text of the name, or leaves the caller's buffer when it is missing |
| `CloudStructures.IncFilesizeMetadata` | cloud_structures/cloud_structures.c:117-130 | When "1" holds the text of n, both "1" and "12" get the text of n plus the increment modulo 2^64, whatever "12" held and in any entry order, and no other entry changes |
| `CloudStructures.SizeFromText` | cloud_structures/cloud_structures.c:122-129 | When "1" holds the text of n, any series of increments leaves the text of n plus their sum modulo 2^64 in "1" and "12", whatever "12" held, and nothing else changed |
| `CloudStructures.SizeAccounting` | cloud_structures/cloud_structures.c:117-130 | After any series of increments the recorded size is the sum modulo 2^64 |
| `CloudStructures.SizeEntries` | cloud_structures/cloud_structures.c:128-129 | Both size entries hold that number and no other entry changes |
| `CloudStructures.SizeFromZero` | cloud_structures/cloud_structures.c:117-130 | Starting from size zero both entries hold the plain sum modulo 2^64 |
| `CloudStructures.DefaultSize` | cloud_structures/cloud_structures.c:25-27 | The default dictionary starts at size zero |
| `CloudStructures.OrderInsensitive` | cloud_connector/plugin/s3_connector/s3_connector.c:126-132 | With distinct names the dictionary does not depend on the order of the entries |
| `CloudStructures.TextIsDecimal` | cloud_structures/cloud_structures.c:86 | The entry names are the decimal texts of the enumeration |
| `Decimal.ScanPrintInt` | fsal_cloud.h:107 | Scanning the printed text of any integer gives it back and stops right behind it |
| `Decimal.ScanPrintTime` | fsal_cloud.h:191 | Every pair of signed 64-bit values survives the unpadded seconds-dot-nanoseconds text |
| `Decimal.ScanPrintUInt64` | fsal_cloud.h:153 | Every unsigned 64-bit value survives its decimal text |
| `DecimalText.PrintNatIsOnly` | fsal_cloud.h:80 | Of all digit texts without leading zeros, the printed one is exactly the one of that value |
| `DecimalText.PrintTimeShape` | fsal_cloud.h:107 | A printed time is two such texts, '-' before a negative one, around one '.' |
| `DecimalText.PrintTimeIsOnly` | cloud_structures/cloud_structures.c:54 | ... and of all texts of that form exactly the one whose parts scan to the seconds and the nanoseconds |
| `DecimalText.ScanIntText` | fsal_cloud.h:153 | An integer text scans to a number, with nothing left, exactly when it is the printed text of that number |
| `DecimalText.ScanFollowsGrammar` | fsal_cloud.h:153 | Scanning any text takes white space, at most one sign and the longest run of digits, and matches exactly when there are digits |
| `DecimalText.SecondsOnly` | fsal_cloud.h:191 | A time text without a '.' behind the seconds leaves the nanoseconds as they were |
| `PathTokenizer.GetNextPathComponent` | common/common.c:50-66 | Writes exactly the next piece and a terminator, never passes the end of the path, moves strictly forward whenever it reports more |
| `PathTokenizer.TokenizerIsExact` | common/common.c:50-66 | Iterating yields the path without one leading '/', split at every '/', without an empty last piece unless it is the only one |
| `Namespace.TokensOfKey` | common/common.c:50-66 | Tokenizing an oid yields "0" and exactly the chain of names it was built from |
| `Namespace.NodeOfKey` | handle.c:161 | The node is recovered from its key |
| `Namespace.KeyInjective` | handle.c:120 | Different places in the tree, or different kinds, have different keys |
| `Namespace.ChildKeys` | handle.c:161 | Appending a name to a directory's oid gives the key of the child directory or file |
| `Namespace.KeysBelow` | handle.c:245-254 | The keys with a directory's oid as prefix are exactly those of the nodes below it |
| `Connector.S3Connector.Init` | cloud_connector/plugin/s3_connector/s3_connector.c:501-528 | Opens the gate exactly when the library starts and credentials exist; exits without credentials |
| `Connector.S3Connector.Deinit` | cloud_connector/plugin/s3_connector/s3_connector.c:535-539 | Closes the gate |
| `Connector.S3Connector.DeleteObject` | cloud_connector/plugin/s3_connector/s3_connector.c:233-260 | Behind the gate, exactly this key is gone and every other key keeps its object |
| `Connector.S3Connector.PutObjectMetadata` | cloud_connector/plugin/s3_connector/s3_connector.c:262-324 | Replaces the metadata of a stored object and keeps its data, changes no other object and no key, behind the gate |
| `Connector.S3Connector.PutObject` | cloud_connector/plugin/s3_connector/s3_connector.c:392-462 | Stores what the put callback sends together with the dictionary, keeps every other object, behind the gate |
| `Connector.S3Connector.GetObjectMetadata` | cloud_connector/plugin/s3_connector/s3_connector.c:326-353 | Fills the front of the array with the object's pairs in some order and keeps the rest, or leaves it alone |
| `Connector.S3Connector.GetObject` | cloud_connector/plugin/s3_connector/s3_connector.c:355-390 | In either state, fills the front of the array and writes exactly the object's data where the stream stands, however it is cut |
| `Connector.S3Connector.ListObjects` | cloud_connector/plugin/s3_connector/s3_connector.c:464-493 | Runs the callback over all batches, behind the gate, and overruns exactly when the batches do not fit |
| `Connector.ResponsePropertiesCallback` | cloud_connector/plugin/s3_connector/s3_connector.c:115-135 | Copies the pairs over the front of the array and reports their number |
| `Connector.GetObjectDataCallback` | cloud_connector/plugin/s3_connector/s3_connector.c:149-160 | Writes one chunk over the stream at its position |
| `Connector.OverwrittenBytes` | cloud_connector/plugin/s3_connector/s3_connector.c:149-160 | A write replaces the bytes from the position on by the buffer, moves none, and grows the file only at its end |
| `Connector.PutObjectDataCallback` | cloud_connector/plugin/s3_connector/s3_connector.c:173-188 | Reads from the beginning of the file on every call |
| `ConnectorLaws.GateIsExact` | cloud_connector/plugin/s3_connector/s3_connector.c:24-33 | For every trace the bucket is what the mutating calls made while the connector was up, and only those, make of it |
| `ConnectorLaws.TraceOnKey` | cloud_connector/plugin/s3_connector/s3_connector.c:233-462 | What a trace leaves under a key is decided by the calls on that key made while up: a delete leaves nothing, a put its object, new metadata the old data if there was any |
| `ConnectorLaws.KeyAbsentExactly` | cloud_connector/plugin/s3_connector/s3_connector.c:233-462 | After any trace a key is absent exactly when a delete of it was followed by no put, or when it was absent and never put, counting calls made while up |
| `ConnectorLaws.StateIsUp` | cloud_connector/plugin/s3_connector/s3_connector.c:526-538 | The state is INITIALIZED exactly when the last opening or closing call opened it |
| `ConnectorLaws.Issue` | cloud_connector/plugin/s3_connector/s3_connector.c:233-539 | The methods of the connector perform exactly the steps of the traces that the gate result is about |
| `ConnectorLaws.UploadIsFaithful` | cloud_connector/plugin/s3_connector/s3_connector.c:173-188 | An upload is faithful for all files of a length if and only if the library asks for the data at most once |
| `ConnectorLaws.UploadedStretch` | cloud_connector/plugin/s3_connector/s3_connector.c:173-188 | With any number of buffers each one sends the beginning of the file, as many bytes as it asks for, one behind the other |
| `ConnectorLaws.SeveralBuffers` | cloud_connector/plugin/s3_connector/s3_connector.c:182-184 | A file whose upload is wrong as soon as it takes two buffers |
| `ConnectorLaws.PutThenGet` | cloud_connector/plugin/s3_connector/s3_connector.c:355-462 | Putting a file and getting the object into an empty file gives back the metadata and the bytes as uploaded, which are the bytes of the file if it took at most one buffer |

## Left out

- Runs.Simulation: runs demand file names, directory handles as parents, keys that fit BUF_SIZE, supported types and modes below 2^31, because the code's behaviour is undefined or ends the process otherwise; repeated creation and shared names are allowed.
- RunLaws.DirectoryListing: covers handles whose oid ends in '/'; for others handle.c:249 lists a prefix cut by one byte, which `RunLaws.FileHandleListing` settles for names of one byte; for longer names that prefix is no oid of the tree and no property is claimed.
- AttributeLaws.AttributeRoundTrip: modes from 2^31 on are printed with "%u" and read with "%d", and C leaves undefined what such a scan stores (ISO C, 7.21.6.2); the model leaves every scan out of range open, so nothing is claimed for them.
- RunLaws.DeliveryIsExact: deliveries whose first entries are only common prefixes are not covered; the store's byte order rules them out (`RunLaws.OrderedDelivery`).
- FileSystem.CloudReadDirents: what an overrun of the 100 slots does to memory; the model only says that it happens, and when.
- Connector.S3Connector.GetObjectMetadata: an object with more pairs than the caller's array holds; the source overruns the array, and no reachable object has more than 13.
- FileSystem.CloudCreate: the response of the store to a put also passes through the metadata callback; a put response carries no user metadata, so nothing is filled in there.
- libs3 itself, credentials, HTTP, `dlopen` and the dispatch wrappers of `cloud_connector.c`: foreign or thin.
- Busy waiting on `status` and the completion callbacks: calls are synchronous.
- `export.c`, `main.c`, `file.c` and the stubs of `handle.c` (rename, unlink, link, symlink, makenode, create_handle): they do no work.
- Random names and probing in `create_random_string` and `get_tmp_file`: a temporary file is a fresh empty byte sequence.
- Memory management, logging and the ops/fsal/fs pointers copied from parent to child handles.
- The `s3magic` directory entry format of the repository's README: no code for it is present.
