# Verified models of Ceph's tracer cache, histogram and test state machines

This project models the parts of the Ceph tree that keep state over whole runs, and proves what
they keep. Everything is Dafny; `dafny verify dfyconfig.toml` checks it.

- **The inode and dentry cache of the FUSE tracer** (`Namespace`, `CacheModel`, `CacheEffects`,
  `Fusetrace`).
  The tracer serves requests by inode number, but makes every system call through a path that it
  rebuilds from its cache. `Namespace` is the real directory tree: entries `(directory, name) ->
  inode`, path strings, and the calls as functions of a path. `CacheModel` states one request as
  one step on the pair of tree and cache, and `CacheEffects` tells what each step answers and does by
  names and inodes alone. `Fusetrace` is the program: inode objects with links down
  (`dentries`) and up (`parents`), a map of inodes, and handlers that update them in place. The
  handlers are proved to carry out the steps; the steps are proved to keep the cache below the tree,
  so that a rebuilt path always leads to the inode it was built for.
- **The multi-dimensional histogram** (`MixedRadix`, `HistogramAxis`, `HistogramCounts`,
  `HistogramVisit`, `PerfHistogram`): flattening of bucket tuples, the quantizer, the counters after
  a run of calls, and the recursive visitor.
- **The state diagram extractor** (`CommentStripper`, `StateChart`, `StateDiagram`): the streaming
  comment stripper and chunker, the tables of declared states, the nested clusters and the edges.
- **The OSD thrasher** (`Thrasher`): four lists under random actions.
- **The usage accountant** (`UsageRecords`, `UsageAccounting`), **the failure watchdog**
  (`Watchdog`), **the packing of a CRUSH location** (`CrushLocation`) and **the scrub wait loop**
  (`ScrubWait`).

A lookup that misses puts a new inode object into the map, even when the map already holds one for
that inode, as it does for the second hard link of a file. The first object then keeps its names but
is no longer in the map. The state of `CacheModel` counts such names as `strays`; links stay
symmetric and below the tree with them, and only the reference counts are lost.

## What the environment is taken to do

The tracer's theorems over runs need the following of the kernel and of the real file system. They
are the predicate `CacheModel.Admissible`, in four parts.

- The file system (`Environment`): a created object has an inode number that no entry of the tree
  mentions, and not that of its parent; a directory is never moved or linked below itself.
- Names (`WellNamed`): a name in a request is not empty, holds no slash and is neither `.` nor `..`.
- Inodes (`Named`): requests name inodes in the map, and none adds a name to an inode that has a
  second object.
- The cache (`LookupFits`, `RenameTracked`): a name that is not cached does not resolve to a directory
  with cached names; a renamed entry is cached unless its target is not, or is another link to the
  same inode.

Files may have any number of hard links, and the last of their objects to be looked up is the one in
the map. `Named` lets requests reach that one only, so a run ends where the kernel uses an inode number
that it was given for an object outside the map (`ReplyOutsideMap`).

Both conditions on the cache are exact. A rename keeps the cache below the tree if and only if
`RenameTracked` holds; a rename of an entry that was never looked up can break it
(`UncachedSourceStale`). `LookupFits` is exact for the state of `CacheModel`, whose entries have the
inode number of their directory: a lookup leaves the objects in such a state if and only if it holds.
What a lookup without it breaks in the program is that every link up leads to an object in the map
(`ParentsInMap`): the names cached in the directory then hang below an object that no request finds.

Conservation of reference counts needs more, and again exactly this (`Tracked`): a name that is looked
up for the first time does not resolve to an inode in the map, a cached name that is looked up is that
of an object in the map, and forgets do not exceed the count. The counts are right after every part
of a run if and only if every request of it is tracked (`RunConservesRefsIff`). A second hard link
breaks it (`SecondLinkUntracked`).

The real file system is more permissive than POSIX `rename()`, `link()` and `unlink()`: inodes have
no type, and any call may fail for a reason of its own (`fault`), so that every run of the real one
is a run of the model. A rename between two links of the same inode does nothing, as POSIX demands.

## Where the code differs from what is promised of it

- `lookup` on a miss stores a new object in the slot of the inode number, even when that slot holds
  one, and so loses the count of the old one (fusetrace/fusetrace_ll.cc:279-292).
- An entry reply can name an inode that is not in the map: after both links of a file were looked up
  and the second object forgotten, a lookup of the first link hits the object that lost its place; the
  next request for that inode does not find one in the map
  (fusetrace/fusetrace_ll.cc:251, 265-295, 314).
- `forget` of an inode that is not in the map leaves a null pointer in its slot
  (fusetrace/fusetrace_ll.cc:312-327).
- `rename` leaves the target's cached entry alone when the source is not cached
  (fusetrace/fusetrace_ll.cc:885-889).
- A state that is declared twice stands twice in the lists of contents, in the same list or in two, but
  has one parent (doc/scripts/gen_state_diagram.py:126-129).
- An edge of a machine ends at a state that no node draws, when the descent stops at a state that has
  contents but no initial state of its own (doc/scripts/gen_state_diagram.py:200-208).
- `emit_dot` fails when there is no top-level machine, or an edge names a machine below another one
  (doc/scripts/gen_state_diagram.py:155-167, 201, 205).
- A later state of the accountant covers an earlier one only as long as no call takes bytes back from
  a user (qa/tasks/radosgw_admin.py:58-63).
- `compare_results` uses a variable that is not bound when a user's summary is missing, so that it
  fails instead of complaining (qa/tasks/radosgw_admin.py:170-172).
- `test_map_discontinuity` fails when there are not more OSDs than must be in, or when none is live
  (qa/tasks/ceph_manager.py:814-830).
- Actions of the thrasher choose from the list of OSDs that are in, or live, without a guard; with a
  bound of zero the list may be empty (qa/tasks/ceph_manager.py:483, 507, 745). `test_pool_min_size`
  always fails, since it logs with two arguments (qa/tasks/ceph_manager.py:134, 724).
- The scrub wait can fail on a snapshot in which every group is scrubbed: when it has no more scrubbed
  groups than the best so far, zero before the first, and the retries are used up. Without groups that disappear, that takes
  no groups and no retries at all (qa/tasks/ceph.py:1080-1093).
- The size of a CRUSH location is a `size_t` that is returned as an `int` (src/libcephfs.cc:1253-1259).

Each of these has a lemma or a contract that says exactly when it happens. One more is not decided
by the code: a unit test expects zeros after construction, but the constructor does not write any
(src/perf_histogram.h:89), so all counts here start from `reset()`.

## Model

| member | source | states |
|---|---|---|
| Namespace.ComponentsOfRendered | fusetrace/fusetrace_ll.cc:94-117 | splitting a rebuilt path at its slashes gives back the names it was built from |
| Namespace.PathNamesOfPathString | fusetrace/fusetrace_ll.cc:94-117 | the same for a whole path string below the base directory |
| Namespace.PathStringSpelled | fusetrace/fusetrace_ll.cc:94-117 | a path is the base with a slash, and a slash before every name |
| Namespace.WalkBelow | fusetrace/fusetrace_ll.cc:94-117 | a walk through part of the entries is the same walk through all of them |
| Namespace.AcyclicNoLoop | fusetrace/fusetrace_ll.cc:94-117 | in a ranked tree only the empty walk returns to its start |
| Namespace.AddEntryAcyclic | fusetrace/fusetrace_ll.cc:151-160 | a new entry keeps the tree acyclic unless its inode reaches its directory |
| Namespace.RenamedAcyclic | fusetrace/fusetrace_ll.cc:882-893 | a rename keeps the tree acyclic unless it moves a directory below itself |
| CacheModel.PathRoundTrip | fusetrace/fusetrace_ll.cc:94-117 | following the path made of first parents down from the root ends at the inode it was made for |
| CacheModel.PathExistsIff | fusetrace/fusetrace_ll.cc:94-117 | there is such a path exactly when the chain of first parents ends at a root without parents |
| CacheModel.PathResolvesOnDisk | fusetrace/fusetrace_ll.cc:119-135 | under the invariant the path also leads to that inode in the real tree |
| CacheModel.NamePathLeads | fusetrace/fusetrace_ll.cc:119-135 | the path of an inode with a name appended leads to the entry of that name in that directory, whether it exists or not |
| CacheModel.FirstUnique | fusetrace/fusetrace_ll.cc:94-117 | the order of the parent map has one first key, so the first parent is determined |
| CacheModel.NameLessIff | fusetrace/fusetrace_ll.cc:72-89 | names are ordered by the first character in which they differ, a beginning before the whole |
| CacheModel.KeyLessIff | fusetrace/fusetrace_ll.cc:72-89 | the keys of the parent map are ordered by name, and for one name by directory |
| CacheModel.FirstIff | fusetrace/fusetrace_ll.cc:94-117 | the first key is the one that no key is less than |
| CacheModel.InvAcyclic | fusetrace/fusetrace_ll.cc:94-117 | under the invariant the parent relation of the objects in the map is acyclic and the root has no parent, so that path construction ends |
| CacheModel.LookupKeepsInv | fusetrace/fusetrace_ll.cc:241-308 | a lookup step keeps the cache below the tree, hits and misses, also when the inode has an object already |
| CacheModel.MissedKeepsInv | fusetrace/fusetrace_ll.cc:279-292 | a new object in the slot of a cached inode keeps the invariant as long as no names are cached in that inode |
| CacheModel.ForgetKeepsInv | fusetrace/fusetrace_ll.cc:310-335 | a forget step keeps the cache below the tree and every count at least one |
| CacheModel.MakeKeepsInv | fusetrace/fusetrace_ll.cc:555-597 | making a node, directory or symbolic link keeps them, also when the inode number was cached before |
| CacheModel.CreateKeepsInv | fusetrace/fusetrace_ll.cc:685-740 | so does creating or opening a file |
| CacheModel.RemovedKeepsInv | fusetrace/fusetrace_ll.cc:803-809 | so does removing an entry, cached or not |
| CacheModel.CachedRenameBelow | fusetrace/fusetrace_ll.cc:882-893 | the renamed cache lies below the renamed tree if and only if the source was cached, or the target was not, or the target was another link to the same inode; over existing names, other links and the same name |
| CacheModel.RenameKeepsInvIff | fusetrace/fusetrace_ll.cc:850-897 | a rename that succeeds keeps the invariant if and only if that condition holds |
| CacheModel.LinkKeepsInv | fusetrace/fusetrace_ll.cc:899-948 | a link step keeps the invariant |
| CacheModel.StepKeepsInv | fusetrace/fusetrace_ll.cc:241-948 | every admissible request keeps the invariant |
| CacheModel.Run | fusetrace/fusetrace_ll.cc:1174 | the invariant holds after every admissible run |
| CacheModel.StepConservesRefsIff | fusetrace/fusetrace_ll.cc:196-335 | from every state of the invariant, a request changes every count by the entry replies given minus the forgets, if and only if it is tracked |
| CacheModel.RunConservesRefs | fusetrace/fusetrace_ll.cc:196-335 | over a tracked run, the counts change by the replies minus the forgets |
| CacheModel.RunConservesRefsIff | fusetrace/fusetrace_ll.cc:196-335 | the counts are right after every part of an admissible run, if and only if each of its requests is tracked |
| CacheModel.CachedWhileReferenced | fusetrace/fusetrace_ll.cc:291-327 | after every tracked run from the start, an inode is in the map exactly when its balance of replies and forgets is positive, and its count is that balance |
| CacheModel.ReplyInMapIff | fusetrace/fusetrace_ll.cc:265-295 | the inode of an entry reply is in the map afterwards, unless the name looked up is that of an object that lost its place and nothing has the place now |
| CacheModel.ReplyOutsideMap | fusetrace/fusetrace_ll.cc:251-327 | an admissible run that ends with such a reply: both links looked up, the second object forgotten, the first link looked up again |
| CacheModel.CacheRefinesDisk | fusetrace/fusetrace_ll.cc:94-215 | after every run from the start, hard links included, every cached entry is an entry of the tree, a path can be rebuilt exactly when the chain of first parents ends at the root, and it resolves to its own inode |
| CacheModel.InitialInv | fusetrace/fusetrace_ll.cc:1150-1155 | the state with only the root satisfies the invariant |
| CacheModel.SecondLinkUntracked | fusetrace/fusetrace_ll.cc:279-292 | looking up both hard links of a file is admissible, and the second reply is not counted |
| CacheModel.UncachedSourceStale | fusetrace/fusetrace_ll.cc:885-889 | a rename of an entry never looked up onto a cached one breaks the invariant |
| CacheEffects.ErrorsIff | fusetrace/fusetrace_ll.cc:241-948 | each error in exactly its case; only a lookup looks at the permission before the path |
| CacheEffects.AnswersIff | fusetrace/fusetrace_ll.cc:241-948 | which requests are answered how, and that an entry names the inode that the name has on disk afterwards |
| CacheEffects.FailureFrame | fusetrace/fusetrace_ll.cc:241-948 | a request that fails changes nothing |
| CacheEffects.BaseKept | fusetrace/fusetrace_ll.cc:241-948 | no request changes the base directory |
| CacheEffects.TreeFrame | fusetrace/fusetrace_ll.cc:241-948 | a request leaves all names of the tree but its own; lookup and forget leave all |
| CacheEffects.NameGiven | fusetrace/fusetrace_ll.cc:555-948 | an entry reply names the existing inode, the linked one, or a new one under a name that was free |
| CacheEffects.NameTaken | fusetrace/fusetrace_ll.cc:771-847 | after unlink and rmdir the name is gone from tree and cache |
| CacheEffects.NameMoved | fusetrace/fusetrace_ll.cc:850-897 | after a rename the new name holds the inode of the old one, which is gone unless both were links to it |
| CacheEffects.NameCached | fusetrace/fusetrace_ll.cc:196-215 | what is made, created, linked or looked up anew is cached under its name, with the object in the map |
| CacheEffects.MadeFrame | fusetrace/fusetrace_ll.cc:196-215 | making and creating take the other names of the object, and those in it, from the cache, and no others |
| CacheEffects.MissedFrame | fusetrace/fusetrace_ll.cc:279-292 | a lookup of a name that was not cached keeps all cached names, leaves those of the inode with the old object, and counts from one |
| CacheEffects.FoundFrame | fusetrace/fusetrace_ll.cc:265-295 | a lookup of a cached name changes no name, a link none but its own |
| CacheEffects.TakenFrame | fusetrace/fusetrace_ll.cc:803-893 | unlink, rmdir and rename leave all cached names but their own |
| CacheEffects.CachedNameMoved | fusetrace/fusetrace_ll.cc:882-893 | a cached name moves with its object, and one that is not cached leaves the cache alone |
| CacheEffects.ForgottenFrame | fusetrace/fusetrace_ll.cc:310-335 | the last reference takes the object and the names of it and in it, and no others; another takes none |
| CacheEffects.EntryHasPath | fusetrace/fusetrace_ll.cc:94-215 | an inode that got a name has a path from then on, that of its directory and the name except after a link; inodes not at or below it keep their paths |
| Fusetrace.Inode.constructor | fusetrace/fusetrace_ll.cc:72-89 | a new inode has its number, no references and no links |
| Fusetrace.Tracer.constructor | fusetrace/fusetrace_ll.cc:1150-1155 | the tracer starts with the root alone, referenced once, in the initial state |
| Fusetrace.Tracer.LinkSymmetry | fusetrace/fusetrace_ll.cc:137-160 | in a linked state, for any two objects, `p.dentries[n]` is `o` if and only if `o.parents[(n, ino of p)]` is `p` |
| Fusetrace.Tracer.RemoveDentry | fusetrace/fusetrace_ll.cc:137-149 | removes both halves of exactly one link |
| Fusetrace.Tracer.AddDentry | fusetrace/fusetrace_ll.cc:151-160 | puts both halves of one link in place, after removing the link that had the name |
| Fusetrace.Tracer.UnlinkInode | fusetrace/fusetrace_ll.cc:162-183 | both loops end, and the links left are exactly those that do not touch the inode |
| Fusetrace.Tracer.RemoveInode | fusetrace/fusetrace_ll.cc:185-194 | frees the object, its slot and its links and nothing else |
| Fusetrace.Tracer.NoDanglingLinks | fusetrace/fusetrace_ll.cc:185-194 | no link of a living inode, in the map or not, refers to a freed one |
| Fusetrace.Tracer.AddInode | fusetrace/fusetrace_ll.cc:196-215 | gives the entry an inode object, a new one or the one with that number after unlinking it, and keeps its count |
| Fusetrace.Tracer.MakeInodePath | fusetrace/fusetrace_ll.cc:94-117 | ends, and gives the string of the path of first parents, or false exactly when there is none |
| Fusetrace.Tracer.MakeOwnPath | fusetrace/fusetrace_ll.cc:119-135 | the string resolves on disk to the inode itself |
| Fusetrace.Tracer.MakeNamePath | fusetrace/fusetrace_ll.cc:119-135 | the string with a name appended leads on disk to that name in that directory |
| Fusetrace.Tracer.HandleLookup | fusetrace/fusetrace_ll.cc:241-308 | replies as the lookup step, and leaves the objects in its state if and only if a call that finds an entry does not find a directory with cached names under a new name |
| Fusetrace.Tracer.LookupMiss | fusetrace/fusetrace_ll.cc:279-292 | the new object in the slot, with the old one keeping its names, is the state of the step if and only if no names were cached in the inode; otherwise a link up leads out of the map |
| Fusetrace.Tracer.LookupHit | fusetrace/fusetrace_ll.cc:265-295 | a hit adds one reference to the object that the name holds, which counts when it is in the map |
| Fusetrace.Tracer.HandleForget | fusetrace/fusetrace_ll.cc:310-335 | leaves the objects in the state of the forget step if and only if the inode is the root or cached |
| Fusetrace.Tracer.HandleMake | fusetrace/fusetrace_ll.cc:555-683 | mknod, mkdir and symlink: reply and new state of the make step; an object that is replied is linked under the name in its directory |
| Fusetrace.Tracer.HandleCreate | fusetrace/fusetrace_ll.cc:685-740 | reply and new state of the create step, for new and existing files; the object that is replied is linked under the name in its directory |
| Fusetrace.Tracer.HandleUnlink | fusetrace/fusetrace_ll.cc:771-813 | reply and new state of the unlink step |
| Fusetrace.Tracer.HandleRmdir | fusetrace/fusetrace_ll.cc:815-847 | reply and new state of the rmdir step |
| Fusetrace.Tracer.MoveDentry | fusetrace/fusetrace_ll.cc:885-889 | the link of the source is moved to the target, or nothing is done when it is not cached |
| Fusetrace.Tracer.HandleRename | fusetrace/fusetrace_ll.cc:850-897 | reply and new state of the rename step |
| Fusetrace.Tracer.HandleLink | fusetrace/fusetrace_ll.cc:899-948 | reply and new state of the link step; the object has the new name in its directory |
| Fusetrace.Tracer.Handle | fusetrace/fusetrace_ll.cc:241-948 | every admissible request is answered as its step and leaves the objects in its state |
| Fusetrace.Tracer.Session | fusetrace/fusetrace_ll.cc:1174 | every admissible run leaves the objects in the state of the run |
| MixedRadix.RawIndexBounds | src/perf_histogram.h:188-203 | the index of a bucket tuple lies within the block of its start index |
| MixedRadix.UnflattenRawIndex | src/perf_histogram.h:188-203 | the tuple can be computed back from the index |
| MixedRadix.RawIndexUnflatten | src/perf_histogram.h:188-203 | every index below the product of the axes is the index of a tuple |
| MixedRadix.RawIndexBijection | src/perf_histogram.h:160-203 | the map from tuples to indices is a bijection onto `[0, raw size)` for any number of axes |
| MixedRadix.RawIndexInOrder | src/perf_histogram.h:188-203 | indices are in the order of their tuples, the first axis most significant |
| HistogramAxis.GetBucketForAxis | src/common/perf_histogram.cc:69-91 | the 64-bit computation, shifts included, gives the bucket of the value and does not overflow for values that fit |
| HistogramAxis.BoundarySteps | src/common/perf_histogram.cc:59-67 | from the minimum, the boundaries of a linear axis are a quantum apart, and those of a logarithmic axis double their distance |
| HistogramAxis.FitsIff | src/common/perf_histogram.cc:69-91 | a value fits if and only if the subtraction, the increment and every shift that the loop reaches stay within 64 bits |
| HistogramAxis.GetAxisBucketRanges | src/common/perf_histogram.cc:93-121 | in 64-bit arithmetic: one non-empty range for each bucket, each beginning behind the one before, that divide up the 64-bit values; a value falls into a bucket if and only if it lies in the range reported |
| HistogramAxis.RangesFitIff | src/common/perf_histogram.cc:93-121 | the condition for that is exact: every value computed on the way fits in 64 bits if and only if it holds |
| HistogramAxis.BucketBetween | src/common/perf_histogram.cc:69-91 | a value not below the minimum lies between the boundaries of its bucket; only with one bucket is that the first |
| HistogramAxis.BucketIffInRange | src/common/perf_histogram.cc:69-121 | a value falls into a bucket if and only if it lies between the boundaries of the bucket, for all axes |
| HistogramCounts.RunCounter | src/perf_histogram.h:110-122 | after a run from zero, each counter is the number of increments of its index, modulo 2^64 |
| HistogramCounts.RunTotal | src/perf_histogram.h:103-122 | the counters add up to the number of calls, modulo 2^64 |
| HistogramCounts.CounterCountsCalls | src/perf_histogram.h:110-203 | each counter is the number of calls with its bucket tuple, modulo 2^64 |
| HistogramCounts.SliceSum | src/perf_histogram.h:65-71 | the counters of a slice add up to the calls that project to it |
| HistogramCounts.SummingOutAxes | src/perf_histogram.h:65-71 | summing out any set of axes gives the histogram of the projected calls |
| PerfHistogram.RawIndexInternal | src/perf_histogram.h:188-203 | the recursion over the axes gives the index of the evaluated tuple, and stays within 64 bits when the raw size does |
| PerfHistogram.RawIndexForValues | src/perf_histogram.h:168-203 | the same for values, each put into its bucket by the 64-bit quantizer |
| PerfHistogram.PerfHistogram.constructor | src/perf_histogram.h:76-90 | a histogram with one counter for each tuple |
| PerfHistogram.PerfHistogram.Copy | src/perf_histogram.h:93-100 | an independent array with the same counters |
| PerfHistogram.PerfHistogram.GetRawSize | src/perf_histogram.h:160-166 | the product of the bucket counts, without overflow on the way |
| PerfHistogram.PerfHistogram.Reset | src/perf_histogram.h:103-108 | all counters are zero |
| PerfHistogram.PerfHistogram.IncBucket | src/perf_histogram.h:119-122 | adds one, modulo 2^64, to the counter of the tuple and to no other |
| PerfHistogram.PerfHistogram.Inc | src/perf_histogram.h:112-115 | every value falls into an existing bucket, and the counter of that tuple and no other grows by one |
| PerfHistogram.PerfHistogram.CountCalls | src/test/common/test_perf_histogram.cc:218-247 | after reset and any run of inc and inc_bucket the counters are those of the bucket tuples counted |
| PerfHistogram.PerfHistogram.ReadBucket | src/perf_histogram.h:126-129 | the counter at the index of the tuple |
| PerfHistogram.PerfHistogram.VisitValues | src/perf_histogram.h:208-224 | the values are all counters once, in increasing index order; every call is made with its level and the values below all axes; the calls parse back to the tree of counters; the 32-bit index does not overflow up to a raw size of 2^31-1 |
| HistogramVisit.LeafIsCounter | src/perf_histogram.h:126-224 | the value at the nested position of a tuple is the counter that `read_bucket` reads |
| HistogramVisit.ValuesInOrder | src/perf_histogram.h:208-224 | a subtree reports exactly its block of the counters, in order |
| HistogramVisit.LevelsRight | src/perf_histogram.h:208-224 | enter and leave calls are made with the level of their axis |
| HistogramVisit.ParseSpelled | src/perf_histogram.h:208-224 | the enter and leave calls of a tree determine the tree |
| CommentStripper.TurnPending | doc/scripts/gen_state_diagram.py:40-60 | one character keeps what was emitted plus what is still to come |
| CommentStripper.StrippedPlain | doc/scripts/gen_state_diagram.py:37-60 | text without comments is kept, up to a slash at its end |
| CommentStripper.CommentCut | doc/scripts/gen_state_diagram.py:37-60 | a comment is cut out from its opening to its first end, and the rest is stripped |
| CommentStripper.UnclosedCut | doc/scripts/gen_state_diagram.py:37-60 | a comment without an end is cut off |
| CommentStripper.RemoveMultilineComments | doc/scripts/gen_state_diagram.py:37-60 | the stream equals: cut from the leftmost opening through the first closing at least two characters later, and repeat; an unclosed comment loses its tail, and a last slash is kept back |
| CommentStripper.AccLines | doc/scripts/gen_state_diagram.py:10-18 | the chunks, before leading newlines are dropped, and an unterminated tail make up the input; each chunk has one delimiter, at its end |
| CommentStripper.ChunkedUnique | doc/scripts/gen_state_diagram.py:10-18 | there is only one such division of the input |
| CommentStripper.ToChar | doc/scripts/gen_state_diagram.py:21-27 | the characters of the lines with newlines turned into spaces |
| CommentStripper.RemoveSingleLineComments | doc/scripts/gen_state_diagram.py:30-34 | the output is, in order, exactly the lines that do not begin with a hash, each without its comment: no two slashes are left, and code before them and the newline are kept |
| CommentStripper.CodeKept | doc/scripts/gen_state_diagram.py:34 | text before the first two slashes is kept |
| CommentStripper.CommentDropped | doc/scripts/gen_state_diagram.py:34 | from two slashes on, everything up to the newline is dropped |
| CommentStripper.LineUncommented | doc/scripts/gen_state_diagram.py:34 | the same of one line: it is kept when it has no two slashes, otherwise up to the first of them, with its newline |
| CommentStripper.Filter | doc/scripts/gen_state_diagram.py:6-7 | all stages together: the chunks divide the code lines, with spaces for newlines and without comments of either kind; each ends at its only semicolon or brace, and none has a newline to lose |
| StateChart.DeclaredInverseIff | doc/scripts/gen_state_diagram.py:110-133 | the parent table and the contents table stay inverse to each other if and only if the declared state is new |
| StateChart.RedeclaredBreaks | doc/scripts/gen_state_diagram.py:126-129 | from any tables, the declaration of a state that stands in a list of contents leaves tables that are not inverse |
| StateChart.NeverRepaired | doc/scripts/gen_state_diagram.py:126-129 | tables that are not inverse are never made so by a declaration |
| StateChart.DeclaredOnceIff | doc/scripts/gen_state_diagram.py:110-133 | after any declarations from empty tables, the two are inverse if and only if no state was declared twice |
| StateChart.MachinesDeclared | doc/scripts/gen_state_diagram.py:110-133 | after any declarations, the machines are the names that some declaration gave an initial state, with the last one given |
| StateChart.ParentsDeclared | doc/scripts/gen_state_diagram.py:110-133 | a state has the parent of its last declaration |
| StateChart.ContentsDeclared | doc/scripts/gen_state_diagram.py:110-133 | the contents of a state are the names declared below it, in order |
| StateChart.KeptHierarchy | doc/scripts/gen_state_diagram.py:154-164 | what a state without a parent reaches is a hierarchy, whatever cycles there are elsewhere |
| StateChart.ClusterFramed | doc/scripts/gen_state_diagram.py:170-180 | a state with contents is a cluster with its number and name around the drawings of its states |
| StateChart.DrawnInOrder | doc/scripts/gen_state_diagram.py:177-179 | states are drawn in the order in which they are listed |
| StateChart.DrawBalanced | doc/scripts/gen_state_diagram.py:170-189 | the braces of a drawing balance at every depth |
| StateChart.DrawNumbers | doc/scripts/gen_state_diagram.py:170-189 | the clusters are numbered consecutively, hence distinctly |
| StateChart.DrawNames | doc/scripts/gen_state_diagram.py:170-189 | every state below the drawn one is drawn, once, and nothing else |
| StateChart.LabelledBlock | doc/scripts/gen_state_diagram.py:172-180 | the label kept for a state is the number of the cluster that draws it |
| StateChart.LabelExists | doc/scripts/gen_state_diagram.py:171-172 | every drawn state with contents has a label |
| StateChart.DrawLeaves | doc/scripts/gen_state_diagram.py:181-189 | exactly the states below the drawn one that have no contents are drawn as nodes, marked exactly when initial |
| StateChart.DescendUnder | doc/scripts/gen_state_diagram.py:200-207 | the descent along initial states ends at a state below its start that has no initial state |
| StateChart.DescendFollows | doc/scripts/gen_state_diagram.py:202-207 | the descent goes from each machine to its own initial state |
| StateChart.EdgeEndsInside | doc/scripts/gen_state_diagram.py:200-207 | the cluster that `ltail` or `lhead` names draws the machine, and the end of the edge is a node inside it if and only if that state has no contents |
| StateChart.EdgeEndsAtNode | doc/scripts/gen_state_diagram.py:200-207 | where every state with contents has an initial state, edges end at nodes inside the cluster |
| StateChart.EdgeWithoutNode | doc/scripts/gen_state_diagram.py:200-208 | a chart whose edge ends at a state that is drawn as a cluster only |
| StateDiagram.StateMachineRenderer.constructor | doc/scripts/gen_state_diagram.py:64-73 | empty tables |
| StateDiagram.StateMachineRenderer.GetState | doc/scripts/gen_state_diagram.py:110-133 | records the declaration in the tables, which stay inverse exactly when the state is new |
| StateDiagram.StateMachineRenderer.GetStates | doc/scripts/gen_state_diagram.py:84-92 | reading all declarations gives tables that hold the last initial state and parent of each name and the names below it in order, and that are inverse if and only if no state was declared twice |
| StateDiagram.StateMachineRenderer.EmitState | doc/scripts/gen_state_diagram.py:170-189 | within states that form a hierarchy the recursive generator ends and gives the drawing, its labels and the next number |
| StateDiagram.StateMachineRenderer.Descent | doc/scripts/gen_state_diagram.py:202-207 | the loop ends at the state that is no machine, by steps from machines to their initial states |
| StateDiagram.StateMachineRenderer.EmitEvent | doc/scripts/gen_state_diagram.py:191-208 | fails exactly when a machine at an end was not drawn; otherwise one edge for each pair, from the first to the second, between the ends of the descents, with the labels of the machines at its tail and head |
| StateDiagram.StateMachineRenderer.EmitDot | doc/scripts/gen_state_diagram.py:154-168 | from tables that agree, without further assumption on cycles: draws a top-level machine and the edges of all events, each attached inside the cluster it names; fails exactly when there is no such machine or an edge names a machine not below it |
| Thrasher.SharedOutSize | qa/tasks/ceph_manager.py:205-221 | two lists that share out the OSDs hold each of them once |
| Thrasher.MoveKeepsShare | qa/tasks/ceph_manager.py:448-474 | moving an OSD from one list to the other keeps them so |
| Thrasher.WithoutAt | qa/tasks/ceph_manager.py:448-459 | only the first occurrence of an OSD leaves its list, and the others keep their order |
| Thrasher.ChoicesPermitted | qa/tasks/ceph_manager.py:857-903 | no weight is negative, and every listed action with a weight satisfies its guard |
| Thrasher.ListedWeights | qa/tasks/ceph_manager.py:858-904 | every action whose guard holds is listed with its weight, and no other |
| Thrasher.ListedInOrder | qa/tasks/ceph_manager.py:857-903 | the actions are listed in one order, whichever of them are |
| Thrasher.NeverFailsIff | qa/tasks/ceph_manager.py:476-516 | for all sizes of the four lists that some OSDs can be shared out to within the bounds, no action listed with a weight fails, if and only if the bounds are positive where actions choose from the lists and test_pool_min_size has no weight |
| Thrasher.PossibleLists | qa/tasks/ceph_manager.py:205-221 | such sizes are those of four lists that share out one set of OSDs twice |
| Thrasher.SelectsOne | qa/tasks/ceph_manager.py:905-911 | a draw falls on the stretch of at most one action |
| Thrasher.Pick | qa/tasks/ceph_manager.py:906-911 | the scan finds the action whose stretch the draw falls on; none exactly when it is beyond the total |
| Thrasher.Thrasher.OutOsd | qa/tasks/ceph_manager.py:448-459 | moves one OSD from in to out |
| Thrasher.Thrasher.KillOsd | qa/tasks/ceph_manager.py:205-221 | moves one OSD from live to dead, and out if asked and in |
| Thrasher.Thrasher.ReviveOsd | qa/tasks/ceph_manager.py:427-445 | moves one OSD from dead to live |
| Thrasher.Thrasher.InOsd | qa/tasks/ceph_manager.py:461-474 | moves one OSD from out to in, but only revives it when it is dead |
| Thrasher.Thrasher.AllUp | qa/tasks/ceph_manager.py:648-657 | ends for every choice with no OSD dead or out |
| Thrasher.Thrasher.TestMapDiscontinuity | qa/tasks/ceph_manager.py:804-837 | ends for every choice; fails exactly when there are not more OSDs than must be in, or none is live and enough are in; otherwise OSDs came in, one died and went out, a dead one was revived, and the bounds hold again |
| Thrasher.Thrasher.ChooseAction | qa/tasks/ceph_manager.py:839-911 | the action that the draw falls on; its guard holds, and there is one when some weight is certain |
| Thrasher.Thrasher.Perform | qa/tasks/ceph_manager.py:857-903 | a permitted action fails exactly when it chooses from an empty list or is test_pool_min_size; otherwise it keeps both bounds and moves one OSD as the action says, or none |
| Thrasher.Thrasher.Pass | qa/tasks/ceph_manager.py:1020-1040 | performs exactly the action that the draw selects from the lists after the clean-up; without a clean-up it fails if and only if none is selected or that one fails |
| Thrasher.Thrasher.DoThrash | qa/tasks/ceph_manager.py:1000-1042 | over every run each state comes from the one before by a pass that does what its draw selects, and the run ends early exactly when a pass fails; the lists share out the OSDs and the bounds hold at the start of each pass; no pass fails from a bounded start with a safe configuration; in the end every OSD is live and in |
| UsageRecords.TablesCountCalls | qa/tasks/radosgw_admin.py:58-116 | after any calls, entries, summary categories and totals hold exactly the sums of the calls they stand for |
| UsageRecords.TablesHoldAmounts | qa/tasks/radosgw_admin.py:58-116 | after any calls, entries, summary categories and totals hold the sum of `out` as bytes received, the sum of `b_in` as bytes sent, the number and the number of successful ones of the calls recorded for them |
| UsageRecords.Conservation | qa/tasks/radosgw_admin.py:106-116 | for each user and counter, the total is the sum over the summary categories and over the buckets and categories |
| UsageRecords.SuccessfulBounded | qa/tasks/radosgw_admin.py:58-116 | after any calls, in every category of every bucket, every summary category and every total, successful operations never exceed operations |
| UsageRecords.RunUnique | qa/tasks/radosgw_admin.py:38-100 | users, buckets and categories stay unique |
| UsageRecords.OwnersRecorded | qa/tasks/radosgw_admin.py:102-105 | after any calls, the records of created buckets name their user as owner, and no others name one |
| UsageAccounting.LaterCovers | qa/tasks/radosgw_admin.py:106-196 | a later state of a run covers an earlier one when each call between takes no count back or is the first of its user |
| UsageAccounting.LaterCoversIff | qa/tasks/radosgw_admin.py:106-196 | every state of a run covers every earlier one if and only if every call of the run is such a call |
| UsageAccounting.CoveredIff | qa/tasks/radosgw_admin.py:121-196 | a report covers the tables of a run if and only if each user, bucket and category of them is found in it, and no counter is smaller there |
| UsageAccounting.ValidateFields | qa/tasks/radosgw_admin.py:64-74 | a bad field when the other record is missing, incomplete counts when it has a smaller counter, and otherwise no complaint |
| UsageAccounting.CompareCategories | qa/tasks/radosgw_admin.py:151-161 | no complaint exactly when every category is covered, and otherwise exactly those that single categories warrant |
| UsageAccounting.CompareBuckets | qa/tasks/radosgw_admin.py:135-161 | no complaint exactly when every bucket is covered; a missing bucket is named exactly when it is missing |
| UsageAccounting.AddToCategories | qa/tasks/radosgw_admin.py:91-105 | find or append, then add the call: equal to the recursive definition |
| UsageAccounting.AddToBuckets | qa/tasks/radosgw_admin.py:82-90 | the same for buckets |
| UsageAccounting.AddToEntries | qa/tasks/radosgw_admin.py:38-46 | the same for users |
| UsageAccounting.AddToSummary | qa/tasks/radosgw_admin.py:47-57 | the same for summaries and their totals |
| UsageAccounting.UsageAccountant.constructor | qa/tasks/radosgw_admin.py:76-77 | empty tables |
| UsageAccounting.UsageAccountant.MakeEntry | qa/tasks/radosgw_admin.py:106-116 | records the call, or nothing for a bucket creation that failed |
| UsageAccounting.UsageAccountant.CompareResults | qa/tasks/radosgw_admin.py:121-196 | an empty result exactly when every recorded count is matched by one at least as large; a failure exactly when a summary is missing; a missing user is named exactly when it is missing |
| Watchdog.StreakUnbroken | qa/tasks/mds_thrash.py:97-110 | a streak holds only ticks at which the daemon was failed, and the tick before it is not one |
| Watchdog.BarksIff | qa/tasks/mds_thrash.py:97-115 | it barks exactly when a thrasher died or a daemon is failed at an unbroken run of ticks that began more than the timeout ago |
| Watchdog.SwappedIff | qa/tasks/mds_thrash.py:97-101 | it fails exactly when a failed daemon is not the object of its name at the first tick of such a run |
| Watchdog.NoteFailures | qa/tasks/mds_thrash.py:97-104 | adds the failed daemons with object and time of this tick unless tracked, fails exactly when a tracked name is another object, and barks exactly when one is overdue |
| Watchdog.ForgetRestored | qa/tasks/mds_thrash.py:106-110 | keeps exactly the failed daemons, as they were |
| Watchdog.Watch | qa/tasks/mds_thrash.py:77-121 | stops at the first tick at which a streak is longer than the timeout or a thrasher has died, fails at the first at which a failed daemon is not the object its streak began with; the memory then holds the failed daemons with objects and times of the first ticks of their unbroken streaks |
| CrushLocation.StrCpy | src/libcephfs.cc:1244-1248 | writes the string up to its first NUL and one NUL, and nothing else |
| CrushLocation.UnpackPacked | src/libcephfs.cc:1239-1251 | splitting the packed bytes at NULs gives back the types and names |
| CrushLocation.PackLevels | src/libcephfs.cc:1236-1251 | computes the size needed, packs the longest list of levels that fits, and writes nothing beyond `len` |
| CrushLocation.GetOsdCrushLocation | src/libcephfs.cc:1222-1260 | each error in its case, with the buffer untouched; otherwise the size needed, or a range error exactly when `len` is not zero and too small; no write beyond `len` |
| CrushLocation.ToIntExactIff | src/libcephfs.cc:1253-1259 | the returned `int` has the lower 32 bits of the size, and is the size exactly when that is at most 2^31-1 |
| CrushLocation.QueryThenFetch | src/libcephfs.cc:1222-1260 | a call with the size from a zero-length query succeeds, and its bytes split into the types and names, in turn |
| ScrubWait.CountGood | qa/tasks/ceph.py:1073-1079 | counts the scrubbed groups, and waits exactly when one is not |
| ScrubWait.GoodAppend | qa/tasks/ceph.py:1073-1079 | each stamp counts for itself, exactly if it is later than the start |
| ScrubWait.BestIsMost | qa/tasks/ceph.py:1080-1082 | the count to exceed is the most seen so far |
| ScrubWait.GapIsLast | qa/tasks/ceph.py:1080-1084 | the gap reaches back to the last snapshot that exceeded it |
| ScrubWait.WaitForScrubs | qa/tasks/ceph.py:1065-1096 | ends within (N+1)*(retries+1) snapshots; fails exactly when the gap exceeds the retries; succeeds only with every group of the last snapshot scrubbed |
| ScrubWait.FailsScrubbedIff | qa/tasks/ceph.py:1080-1093 | at a snapshot with every group scrubbed the wait fails if and only if it has no more scrubbed groups than the best so far and the retries are used up |
| ScrubWait.NoneDisappearedIff | qa/tasks/ceph.py:1080-1093 | if no earlier snapshot had more groups, it fails there if and only if it is the first one, it is empty and no retry is allowed |
| ScrubWait.ScrubbedYetFailed | qa/tasks/ceph.py:1080-1093 | for every number of retries there is a run with a group that disappears which fails on a scrubbed snapshot |

## Left out

- The tracer's reads, writes, attributes, file descriptors, permissions and trace output: they do not touch the cache. Whether a request is allowed is a parameter.
- The width of the tracer's reference counts and inode numbers: both are unbounded here.
- Fusetrace.Tracer.HandleMake: does not tell nodes, directories and symbolic links apart, because the three handlers update the cache in the same way and inodes have no type here.
- Fusetrace.Tracer.HandleCreate: does not model the file descriptor that the handler keeps.
- CacheModel.StepKeepsInv: needs the two conditions on the cache, which are proved exact in HandleLookup and RenameKeepsInvIff.
- CacheModel.RunConservesRefs: is about tracked runs only, which is exact by RunConservesRefsIff; counts of objects that lost their place are not followed.
- CacheModel.CacheRefinesDisk: is about runs in which requests name inodes in the map, since the handlers need an object there (fusetrace/fusetrace_ll.cc:251-252).
- The real file system changes only through the tracer's own requests, and `st_ino` of an object never changes.
- PerfHistogram.PerfHistogram.constructor: says nothing about the first values of the counters, because the source does not write them.
- PerfHistogram.PerfHistogram.Inc: demands values whose evaluation stays within 64 bits, because signed overflow has no defined result.
- HistogramAxis.GetAxisBucketRanges: demands axes whose boundaries fit in 64 bits, because signed overflow has no defined result.
- Interleavings of threads on the histogram's atomics: each operation is one addition.
- `dump_formatted` and `dump_formatted_axis`: formatting only.
- `get_context` and `get_event`, and the matching in `get_state`: regular expressions. Declarations are parameters, and the edges are a field that is given.
- The text of the emitted dot lines: a line is a value with its state or number.
- Python's `is` on one-character strings is taken as equality.
- StateDiagram.StateMachineRenderer.EmitDot: takes the initial state of every drawn machine to be among its contents; otherwise the descent need not end.
- Thrasher.Thrasher.Perform: does not model failures that depend on what the cluster answers, such as the assertions of `inject_pause` and `test_backfill_full`.
- `blackhole_kill_osd`: the same lists as `kill_osd`.
- Remote commands, sleeps and time limits of the thrasher, and floating-point rounding: weights and draws are reals.
- UsageAccounting.UsageAccountant.CompareResults: does not model reports with missing keys below the two tables, and gives complaints by kind and name, not by text.
- ScrubWait.WaitForScrubs: leaves out the first wait for active and clean groups and the repeated scrub requests; the snapshots are a parameter.
- CrushLocation.GetOsdCrushLocation: does not model an overflow of `size_t`.
- The other functions of `libcephfs.cc`, the daemons and the remaining test tasks: wrappers and fixed scripts that would only add easy members.
