# A verified model of the JSON database's storage engine

The database keeps JSON trees in one data file. The file starts with an 8-byte header and
continues with 8192-byte sections of two kinds. In an *extent* section every JSON node is an
80-byte entity with its value and key as the record; in a *type* section every type is a 24-byte
item, one 24-byte item per attribute, and a record that holds their names. Items grow up from
byte 32, records grow down from byte 8192. Nodes of one tree are linked by file offsets
(dad, brother, first son) and are placed first-fit, so a tree may spread over many sections in no
particular order. Queries walk the sections through a lazy iterator, and the delete and update
commands change the file while that iterator is live.

The model follows the C code under `dbms/`, in the form the code has: objects whose methods
update their fields are classes, loops are loops, and the disk is a mutable sequence of bytes that
the section headers, the file header, items and records are really written to and read from.
Sizes are those of a 64-bit build; `size_t` is modelled with its wrap-around, including the
negative shifts passed as `-1 * n`.

## What is proved

* **One section** (`Section`, `SectionHeader`). `Section.Rep` says that the header in memory and
  the header on disk agree, that `32 <= lip <= frp <= 8192` and `free_space == frp - lip`, that
  live items and records are disjoint and in opposite order, that every byte they do not cover
  is zero, and that both pointers are tight. Writes keep it for all inputs. A delete keeps it
  *if and only if* the lowest remaining record does not begin with a zero byte
  (`Section.LowestLed`), because the scan over the record border recognises free space by zeros
  only. `Witnesses.FalseIsOverrun` breaks it with a stored `false`. Deleting everything, in any
  order, gives back the whole section.
* **One file** (`Store`, `File`, `FileTypes`). All sections together tile the file, every live
  entity has exactly one home, and a step inside one section cannot disturb another.
* **Trees** (`Forest`, `FileForest`, `Sons`). A ghost *shape* per tree bounds the recursion of
  `file_read` and `file_delete` and makes precise that trees share no entity and miss none. A
  written tree reads back, exactly unchanged if and only if its strings are C strings. Deleting a
  root kills exactly its tree. Deleting inside a tree leaves a forest if and only if
  the node is its dad's first son.
* **Queries and iteration** (`Query`, `Find`, `Iterator`). The iterator yields the hits of all
  sections in order, each once; for a query with a type name or a condition on a field these are
  exactly the live entities that satisfy it.
* **Commands** (`Commands`, `User`, `Database`). `user_delete` and `user_update` under their own
  live iterator, for every query that only roots satisfy: what remains is the old forest without, or
  with exactly one replacement for, each root that satisfied the query. The update terminates even
  when the new tree satisfies the query itself and is met again in a later section. A failed update
  has replaced the hits before the one that it lost.
* **Whole runs** (`Session`). Over any run of commands on a file, whichever of them fail, the database
  stays sound, each command has its effect on the database that the one before it left, and a tree
  that none of the run's update and delete queries asks for is still there afterwards, at its old
  offset, entity for entity. What is asked of the run is stated on its start and on its commands, and
  is shown to hold again before each of them. `Witnesses.SampleRuns` is such a run.
* **One-step update** (`Update`). `sect_ext_update`: when it succeeds, what it keeps, when it
  leaves the header on disk stale, and when a failure loses the entity.

A record is *led* when it is empty or does not begin with a zero byte. The delete and update
commands assume that all stored records are led (`Extents.CellsLed`), the delete of one tree only that its own scans
come right (`FileForest.Scans`); opening, types, inserts and reads need no
such assumption, and a run needs it only if it deletes or updates. Inserted roots have no brothers.

The query of a delete or update need not name a type, and the queries that come from the network
never do. It must be satisfied by roots only (`Commands.RootQuery`): with a type name
that is so on every database (`Commands.TypedIsRootQuery`), without one it depends on the trees. When
a node inside a tree is hit, `file_delete` treats it as a root. If it is its dad's first son, the
tree loses it and stays whole (`Sons.DeleteFirstSon`); otherwise the link of the brother before it
leads to a dead entity from then on (`Sons.InnerDelete`, `Witnesses.UntypedDeleteDangles`). An
update then writes the new tree untyped, with the dad's offset in it, but no link leads to it.

## Where the code and its promises part

Each line names the exact condition and an input on which it fails, from an empty section or file on.

* `sect_head_cmprs_frp` can walk over live data after a delete: exactly when the lowest remaining
  record begins with a zero byte (`Section.LowestLed`, `Witnesses.FalseIsOverrun`).
* `file_delete` relinks the dad only, so deleting a node that is not a first son leaves the link of
  the brother before it dangling (`Sons.InnerDelete`, `Witnesses.UntypedDeleteDangles`).
* `json_is_apply_type` steps from son to son through `next`, which is NULL inside a tree, so a type
  with two or more attributes rejects every object and a type with one attribute accepts only on the
  first son (`Database.AppliesExact`, `Witnesses.ConformingRejected`).
* `sect_ext_update` restores the header after the fits-in-gap branch without writing it to disk, and
  in the moving branch deletes the entity before it knows that there is room for it again
  (`Update.ExtUpdate`, `Witnesses.UpdateStale`, `Witnesses.UpdateLoses`).
* `user_delete_type` does not look for trees of the type; the database stays sound if and only if
  there are none (`Database.UserDeleteType`, `Witnesses.TypeInUse`).
* A look-up by the empty name takes a zeroed slot among the types where that comes before every
  nameless type, and a root inserted under it makes the database unsound: exactly then
  (`Database.NamelessFirst` in `Database.UserWrite`, `Witnesses.EmptyNameUnsound`).

## Model

| member | source | states |
|---|---|---|
| Bytes.AddNeg | dbms/src/section/header.c:45-59 | a shift by a wrapped negative amount is a true subtraction whenever the value is large enough, so no wrap survives |
| Bytes.WordsRoundTrip | dbms/include/section/header.h:27-33 | a structure of 64-bit fields survives the trip through its bytes |
| Bytes.WordsUpdate | dbms/src/file/file.c:195-210 | overwriting the eight bytes of one field changes that field and no other byte |
| Bytes.WordsBytes | dbms/include/section/header.h:27-33 | byte j of field i lies at 8 * i + j, least significant byte first |
| Disk.Disk.Write | dbms/src/file/header.c:33-43 | a write changes exactly the bytes it covers, and leaves the file alone when it is empty |
| Disk.RewriteSame | dbms/src/file/header.c:45-51 | syncing a header that is on disk already changes nothing |
| Section.PushRep | dbms/src/section/extents.c:26-48 | pushing an item and a record keeps the whole section invariant, whatever the bytes are |
| Section.PatchRep | dbms/src/section/extents.c:250-253 | rewriting one live item in place keeps the section invariant and every other item and record |
| Section.BorderRecord | dbms/src/section/extents.c:96-129 | the record of the last slot lies exactly at frp, which is what the border shortcut of a delete relies on |
| Section.BorderLoose | dbms/src/section/extents.c:96-129 | the border shortcut moves lip and frp by exactly the right amounts |
| Section.CompressLip | dbms/src/section/header.c:61-80 | the backward scan over zero slots never passes a live item and stops right behind one, or at 32 |
| Section.ScanOverruns | dbms/src/section/header.c:82-97 | the forward scan walks over the lowest record when that begins with a zero byte |
| Section.CompressFrp | dbms/src/section/header.c:82-97 | the forward scan restores the layout if and only if the lowest record does not begin with a zero byte |
| Section.DeleteRep | dbms/src/section/extents.c:96-129 | zeroing one item and its record and scanning, with or without the border shortcut, restores the whole invariant if and only if the lowest remaining record does not begin with a zero byte |
| Section.EmptyRep | dbms/src/section/header.c:11-21 | a section without live entries has the header its constructor gave it |
| Section.HeaderDetermined | dbms/src/section/header.c:37-97 | the header depends on the live entries only, not on the writes and deletes that led to them |
| Section.HeaderReadsBack | dbms/src/section/header.c:37-43 | the first 32 bytes of a section decode to the header in memory |
| SectionHeader.SectHead.constructor | dbms/src/section/header.c:11-21 | a new section has lip 32, frp 8192, free_space 8160, and only its header bytes are written |
| SectionHeader.SectHead.ShiftLip | dbms/src/section/header.c:45-51 | lip and free_space move in opposite directions, with wrap-around, and the header on disk follows |
| SectionHeader.SectHead.ShiftFrp | dbms/src/section/header.c:53-59 | frp and free_space move together, with wrap-around, and the header on disk follows |
| SectionHeader.SectHead.CmprsLip | dbms/src/section/header.c:61-80 | the loop terminates; it gives back exactly the zero slots below lip, stopping at 32 or at a slot that is not zero, and keeps free_space in step |
| SectionHeader.SectHead.CmprsFrp | dbms/src/section/header.c:82-97 | the loop terminates; it gives back exactly the zero bytes from frp on, stopping at 8192 or at a byte that is not zero, and keeps free_space in step |
| SectionHeader.SectHead.Read | dbms/src/section/header.c:99-109 | reads the bytes at a section offset |
| SectionHeader.SectHead.Write | dbms/src/section/header.c:111-121 | writes the bytes at a section offset and no others |
| Json.StrCopyIdempotent | dbms/src/utils/string.c:7-13 | copying a string by strncpy twice gives what copying it once gives |
| Json.StrCopyExact | dbms/src/utils/string.c:7-13 | the copy equals the original if and only if nothing but NUL follows the first NUL |
| Json.StrCopyBytes | dbms/src/utils/string.c:7-13 | the copy has the length of the original, its bytes up to the first NUL, and NUL from there on |
| Json.StrEqExact | dbms/src/utils/string.c:30-44 | strings compare as equal if and only if they have the same length and agree up to a place where both end or both have their first NUL |
| Json.StrEqPlain | dbms/src/utils/string.c:30-44 | a string without NUL compares as equal to itself only |
| Json.TypeCodes | dbms/include/json/type.h:3-10 | the five node types have the codes 0 to 4 in this order |
| Json.AddBroAppends | dbms/src/json/json.c:78-87 | appends to the end of the chain of brothers |
| Json.AddSonAppends | dbms/src/json/json.c:89-105 | appends to the end of the sons, and changes nothing else of the node |
| Json.ReadBackExact | dbms/src/section/extents.c:50-85 | a tree comes back from storage unchanged if and only if all its keys and strings are C strings |
| Json.ReadBackBytes | dbms/src/section/extents.c:50-85 | what comes back, byte for byte: keys and strings up to their first NUL, other values whole, at the same places in the tree |
| Extents.EntRoundTrip | dbms/include/json/entity.h:20-30 | an entity survives the trip through its 80 bytes, which hold its fields in the order of the structure |
| Extents.Write | dbms/src/section/extents.c:26-48 | succeeds if and only if free_space covers entity, key and value; then header, item and record bytes are written and nothing else, and the pointers move by exactly these sizes; otherwise nothing changes |
| Extents.WriteCell | dbms/src/section/extents.c:26-48 | on a sound section a write adds one live entity at lip with its key and value, keeps all others, and keeps the invariant |
| Extents.WrtItm | dbms/src/section/extents.c:250-253 | writes the entity's bytes and nothing else |
| Extents.RdItm | dbms/src/section/extents.c:254-257 | reads the entity whose bytes lie there, and the zero entity from a zeroed slot |
| Extents.RelinkRep | dbms/src/section/extents.c:250-253 | rewriting a live entity with other links keeps the section and all other entities |
| Extents.SonPatch | dbms/src/file/file.c:194-210 | the raw write at dad_ptr + offsetof(son_ptr) amounts to writing the dad's entity with another son_ptr |
| Extents.Read | dbms/src/section/extents.c:50-85 | returns the live entity with its key, type and value, or a nameless zero node for a zeroed slot, and changes no byte of the file |
| Extents.Delete | dbms/src/section/extents.c:96-129 | returns the deleted entity; the section without it is sound if and only if the lowest remaining record does not begin with a zero byte; no byte outside the section changes |
| Extents.SlotLiveOrDead | dbms/src/section/extents.c:229-247 | every slot below lip holds a live entity or is zero |
| Extents.CellIsSlot | dbms/src/section/extents.c:229-247 | every live entity is one of the slots that a load visits |
| Extents.Load | dbms/src/section/extents.c:229-247 | lists the offsets of all slots below lip in order, dead ones included, and ends exactly at lip |
| Extents.DeleteAll | dbms/src/section/extents.c:96-129 | where no record begins with a zero byte, deleting all live entities one by one, in any order whatsoever, leaves the section in its constructor state: lip 32, frp 8192, free_space 8160 |
| Types.TypePhSz | dbms/src/object/type.c:58-82 | the size of a type is 24 bytes, 24 more per attribute, and the lengths of all names |
| Types.AttrWordsAt | dbms/src/section/types.c:41-59 | where each attribute of a stored type is described in its item, and where that says its name lies |
| Types.AttrRecAt | dbms/src/section/types.c:41-59 | where each attribute's name lies in the record |
| Types.Write | dbms/src/section/types.c:20-64 | succeeds if and only if free_space covers the whole type; then it consumes exactly the item size at lip and the record size at frp, and the type is live at the returned offset; otherwise nothing changes |
| Types.WriteAttr | dbms/src/section/types.c:41-59 | each turn of the attribute loop adds one name below the record so far and one slot behind the item so far, without crossing |
| Types.Read | dbms/src/section/types.c:104-142 | returns the type stored at the offset with its attributes in order, and its item size; a zeroed slot reads as a nameless type of 24 bytes |
| Types.CopiedExact | dbms/src/section/types.c:104-142 | names that are read are the stored ones through strncpy, attribute types are as stored, and so a type reads back unchanged if and only if all its names are C strings, which names without NUL are |
| Types.LastAttrSoff | dbms/src/section/types.c:72-74 | the offset of the last attribute entity comes out right in wrapping arithmetic, and for no attributes it is the type entity itself |
| Types.LastSlot | dbms/src/section/types.c:72-83 | the last slot, read as an attribute or as the type itself, points at the lowest byte of the block of names |
| Types.RdEnds | dbms/src/section/types.c:68-83 | the two slots that a delete reads bound exactly the type's item and its block of names, for every number of attributes and for a zeroed slot too |
| Types.Delete | dbms/src/section/types.c:66-102 | for every number of attributes exactly the type's items and names are zeroed, and of a zeroed slot nothing; the section without the type is sound if and only if the lowest remaining record does not begin with a zero byte |
| Types.LedTEntries | dbms/src/section/types.c:66-102 | names without NUL satisfy that condition |
| Types.WalkStep | dbms/src/section/types.c:144-168 | at a synchronised offset without a live type there is a zeroed 24-byte slot, and behind it the walk is synchronised again |
| Types.WalkLive | dbms/src/section/types.c:144-168 | behind a live type the walk is synchronised again and has not passed lip |
| Types.Load | dbms/src/section/types.c:144-168 | the walk lists exactly the live types and the free slots, each once, in order, with the types they read as, and ends exactly at lip |
| Types.Find | dbms/src/section/types.c:170-194 | takes the lowest match, with its attributes in order, and fails if and only if there is none: a live type with the name, or for the empty name any free slot; for a name without NUL that is the lowest type whose name is equal byte for byte |
| Types.DeleteAll | dbms/src/section/types.c:66-102 | where no name holds a NUL, deleting all types one by one, in any order whatsoever, leaves the section in its constructor state |
| Store.ExtStep | dbms/src/section/extents.c:26-129 | a change inside one extent section keeps the file invariant: every other section, the types and the file header are as they were |
| Store.TypesStep | dbms/src/section/types.c:20-102 | a change inside one type section keeps the file invariant |
| Store.AddExtInv | dbms/src/file/file.c:361-367 | appending an extent section keeps the file invariant |
| Store.AddTypesInv | dbms/src/file/file.c:368-374 | appending a type section keeps the file invariant |
| Store.OneHome | dbms/src/file/file.c:335-346 | no offset lies in two extent sections |
| Store.OneTypesHome | dbms/src/file/file.c:348-359 | no offset lies in two type sections |
| Store.TilingExact | dbms/src/file/file.c:335-374 | an offset lies in a section if and only if it lies between the file header and lst_sect_ptr, and then in a section of one kind only |
| Store.NoCellAtZero | dbms/src/file/file.c:335-374 | no entity and no type lies at offset 0, so 0 can stand for no link |
| File.File.constructor | dbms/src/file/file.c:17-23 | a new file has no section and a header that says so |
| File.File.GetSectExt | dbms/src/file/file.c:335-346 | finds the first extent section in the list that contains an offset, and fails if and only if there is none |
| File.File.GetSectTypes | dbms/src/file/file.c:348-359 | finds the first type section in the list that contains an offset, and fails if and only if there is none |
| File.File.AddSectExt | dbms/src/file/file.c:361-367 | appends an empty extent section at lst_sect_ptr, keeping all others, and fails if and only if the file cannot grow |
| File.File.AddSectTypes | dbms/src/file/file.c:368-374 | appends an empty type section at lst_sect_ptr, keeping all others, and fails if and only if the file cannot grow |
| File.File.ExtWrite | dbms/src/file/file.c:110-122 | writing into one section adds one live entity to the file and keeps the file invariant; fails if and only if that section lacks room |
| File.File.ExtDelete | dbms/src/file/file.c:179-181 | deleting one entity removes it from the file and keeps every other; the file is sound afterwards if and only if the lowest record left in that section does not begin with a zero byte |
| File.File.ExtRelink | dbms/src/file/file.c:139-139 | rewriting an entity with its links changes these links and nothing else in the file |
| File.File.PatchSon | dbms/src/file/file.c:194-210 | the raw write over a dad's son_ptr changes that link and nothing else in the file |
| FileTypes.FirstFit | dbms/src/file/file.c:36-40 | the loop stops at the first type section with room for the whole type, and stores it behind that section's items |
| FileTypes.AddType | dbms/src/file/file.c:32-55 | stores the type in the first section with room, or in a new one when none has any, at the item border of that section, and keeps all others; fails only when it fits no section or the file cannot grow |
| FileTypes.FirstOfAll | dbms/src/file/file.c:78-94 | the first match in the first section that has one is the lowest match in the file |
| FileTypes.FindType | dbms/src/file/file.c:78-94 | takes the lowest match over all sections and fails if and only if there is none: a live type with the name, or for the empty name any free slot; for a name without NUL that is the lowest type in the file whose name is equal byte for byte |
| FileTypes.DeleteType | dbms/src/file/file.c:57-77 | removes the lowest match, so no type if that is a free slot, and keeps all others where they are; the file is sound afterwards if and only if the lowest record left in the section does not begin with a zero byte; fails if and only if there is no match |
| FileTypes.ReadType | dbms/src/file/file.c:95-104 | returns the live type at an offset, a nameless type for a zeroed slot, and nothing for an offset outside all type sections |
| Forest.LinkedFrame | dbms/src/file/file.c:144-170 | a tree depends on its own entities only: whatever else changes, it reads the same |
| Forest.OneTree | dbms/src/file/file.c:144-170 | every live entity belongs to exactly one tree |
| Forest.InnerUntyped | dbms/src/file/file.c:124-137 | only a top of a tree carries a type, and every live entity has a readable tree below it |
| Forest.ForestUnion | dbms/src/file/file.c:106-142 | forests over different entities make one forest |
| Forest.JoinBuilt | dbms/src/file/file.c:106-142 | linking an entity to its written brothers and sons makes one tree that spells out the JSON node |
| Forest.DeleteTop | dbms/src/file/file.c:172-214 | removing a top with everything below it leaves a forest of all the other trees |
| Forest.OtherTopsKept | dbms/src/file/file.c:172-214 | every other tree keeps its entities and reads the same |
| FileForest.FirstFit | dbms/src/file/file.c:111-115 | the loop stops at the first extent section with room for the entity and its record, and writes it behind that section's items |
| FileForest.Place | dbms/src/file/file.c:106-122 | one entity goes to the first section with room, or to a new one when none has any, at a fresh offset other than 0; it fails only when it fits no section or the file cannot grow |
| FileForest.FileWrite | dbms/src/file/file.c:106-142 | on success exactly one new tree has been added, whose root is at the returned offset, it spells out the JSON tree, and each entity records the size its record was written with; older entities are unchanged, also on failure, and then every piece left behind is a subtree or a bare node of the tree; it fails only when a node fits no section or the file cannot grow, and adds at most one section per node |
| FileForest.FileRead | dbms/src/file/file.c:144-170 | terminates and rebuilds exactly the tree that the links spell out, brothers and sons in order; fails if and only if the offset lies in no extent section; changes no byte of the file |
| FileForest.WriteThenRead | dbms/src/file/file.c:106-170 | for every tree, whatever bytes it stores: once written, it reads back as it went in, up to strncpy, and unchanged if and only if its strings are C strings |
| FileForest.FileDelete | dbms/src/file/file.c:172-214 | where each of its single deletes leaves a section that can be scanned: terminates; as a root kills exactly the node and all below it, otherwise its brothers with all below them too; the dad's first-son link moves on to the brother or to 0; every other entity is unchanged |
| FileForest.ScansExact | dbms/src/section/header.c:82-97 | that condition in closed form: after each delete, the lowest record of the section it took place in does not begin with a zero byte |
| FileForest.LedScans | dbms/src/section/header.c:82-97 | a file without records that begin with a zero byte meets it |
| Sons.DropLinked | dbms/src/file/file.c:194-210 | after a first son is deleted, the tree around it is well linked without exactly the deleted entities |
| Sons.DeleteFirstSon | dbms/src/file/file.c:172-214 | deleting the first son of any node at any depth leaves a forest, in which only the dad's tree has changed |
| Sons.FirstSonRead | dbms/src/file/file.c:144-214 | reading the dad afterwards gives the same tree without its first son, the other sons in order |
| Sons.FirstSonIff | dbms/src/file/file.c:194-210 | what a caller can check, that the dad's son_ptr is the node, holds if and only if the one link to the node is a first-son link |
| Sons.InnerDelete | dbms/src/file/file.c:172-214 | deleting a node inside a tree leaves a forest if and only if it is its dad's first son, and otherwise a live brother link that leads to a dead entity |
| Sons.DeleteAny | dbms/src/file/file.c:172-214 | for any live entity, exactly the entities of its subtree are gone, and only the dad's first-son link may have changed; the file stays a forest if and only if the entity is a top or its dad's first son; otherwise, and only then, a live brother link leads to a dead entity |
| Query.ChainLinks | dbms/src/json/json.c:208-215 | walking a chain of brothers visits each node and then the one its brother link leads to |
| Query.ByKeyFirst | dbms/src/json/json.c:206-217 | the look-up finds the first brother with the key, and fails if and only if none has it |
| Query.DrillSplit | dbms/src/query/query_item.c:29-38 | drilling down a path is drilling down its parts one after the other |
| Query.DrillOne | dbms/src/query/query_item.c:31-38 | one key leads to the first of all sons with that key, and nowhere if and only if no son has it |
| Query.DrillFollows | dbms/src/query/query_item.c:29-38 | nodes each of which is the first son with the next key are where a path leads |
| Query.DrillPasses | dbms/src/query/query_item.c:29-38 | and a path that leads somewhere passes such nodes |
| Query.IntTestExact | dbms/src/query/query_item.c:52-67 | on every node that holds the four bytes of an int32_t, each operator holds if and only if the mathematical comparison does |
| Query.FlagTestExact | dbms/src/query/query_item.c:84-91 | a flag passes if and only if the operator is equality and the flags are equal |
| Query.OtherTests | dbms/src/query/query_item.c:40-94 | a node without a value compares as zero, and nothing else is assumed of the comparisons that the model leaves open |
| Query.TypeHoldsExact | dbms/src/query/query.c:54-63 | the type test passes if and only if no type is asked for, or the stored type has that name as a C string |
| Query.AcceptsExact | dbms/src/query/query.c:40-63 | what a query asks of a tree, told by the nodes its paths pass and by the bytes of the names |
| Query.QuietFrags | dbms/src/file/file.c:106-142 | if no node of a tree, whole or bare, meets some conditions, then nothing that a write of the tree leaves behind does |
| Query.SonByKey | dbms/src/json/json.c:206-217 | finds the first son with the key, or none; for a key without NUL that is the first son whose key is equal byte for byte |
| Query.ItemCheck | dbms/src/query/query_item.c:27-95 | a condition holds if and only if there are nodes from the tree's top down, each the first son of the one before it with the next key of the path, of which the last satisfies the comparison; an operator that the type lacks never holds |
| Query.Query.ItemAdd | dbms/src/query/query.c:26-38 | a new condition goes right behind the first one, and none is lost |
| Query.Query.Check | dbms/src/query/query.c:40-63 | accepts if and only if every condition is met by such nodes, and no type is asked for or the tree's type has that name as a C string |
| Query.CheckIsConjunction | dbms/src/query/query.c:26-52 | for every sequence of additions, the check is the conjunction of all conditions ever added, although they are permuted |
| Query.AddAllOrder | dbms/src/query/query.c:26-38 | the list holds the first condition first and the others from last to first |
| Find.OneShape | dbms/src/file/file.c:144-170 | the links determine the tree at an offset, so what is read is well defined |
| Find.FileFind | dbms/src/file/file.c:299-333 | returns, in slot order, the slots whose tree and type satisfy the query |
| Find.FindSlot | dbms/src/file/file.c:305-328 | one slot is taken if and only if its tree and type satisfy the query |
| Find.HitExact | dbms/src/file/file.c:305-328 | a slot satisfies a query if and only if the tree read from it meets all conditions and, where a type is asked for, a live entity in it has a live type of that name |
| Find.DeadHits | dbms/src/file/file.c:299-333 | a zeroed slot satisfies exactly the queries without a type name whose conditions a nameless zero node meets |
| Find.FieldsSelect | dbms/src/query/query_item.c:27-95 | one condition on a field keeps zeroed slots out |
| Find.SelectedExact | dbms/src/file/file.c:299-333 | for such a query the result lists exactly the live entities that satisfy it, each once, in order |
| Iterator.Iter.constructor | dbms/src/json/iter.c:21-36 | a new iterator stands at the first section with hits, with these hits, or at no section when there are none |
| Iterator.Iter.Begin | dbms/src/json/iter.c:28-35 | the loop over leading sections without hits terminates at the first one with hits |
| Iterator.Iter.Next | dbms/src/json/iter.c:43-64 | drops the current hit; when it was the last one, moves on to the next section with hits, or to the last section without any |
| Iterator.Iter.Advance | dbms/src/json/iter.c:56-63 | the loop over sections without hits terminates at the next one with hits, or at the last section |
| Iterator.StartedRest | dbms/src/json/iter.c:21-36 | a new iterator has all hits of all sections, in list order, before it |
| Iterator.NextRest | dbms/src/json/iter.c:43-69 | on an unchanged file each step drops exactly the first of the hits still to come, and an iterator is available if and only if there is one |
| Commands.KeptSame | dbms/src/user/user.c:94-134 | a tree whose entities are untouched reads the same and satisfies the same queries |
| Commands.TypedIsRootQuery | dbms/src/file/file.c:124-137 | a query with a type name is satisfied by roots only, on any database |
| Commands.HitIsTop | dbms/src/user/user.c:94-134 | where only roots satisfy the query, every hit is a live typed root of the forest |
| Commands.InnerSame | dbms/src/file/file.c:144-170 | every node of an untouched tree, at any depth, reads the same |
| Commands.RootsOnlyAfter | dbms/src/user/user.c:94-134 | if every tree is an old one or a new one in which at most the root satisfies the query, still only roots satisfy it |
| Commands.SteppedHit | dbms/src/user/user.c:94-134 | replacing one root changes no other hit |
| Commands.SteppedIter | dbms/src/user/user.c:94-134 | deleting the current root, and writing another anywhere in the file, leaves the rest of a live iterator right: nothing missed, nothing stale, nothing twice |
| Commands.StartCovers | dbms/src/json/iter.c:21-36 | a new iterator misses no hit, and its hits all lie in its section |
| Commands.CurrentIsFirst | dbms/src/json/iter.c:43-64 | the current hit comes before all others that are still to be dealt with |
| Commands.NextCovers | dbms/src/json/iter.c:43-64 | nor does a step of the iterator on a file that has changed since it started |
| Commands.ExhaustedCovers | dbms/src/json/iter.c:66-69 | when the iterator is exhausted, all that satisfies the query has been dealt with |
| Commands.AllHits | dbms/src/json/iter.c:21-69 | over all sections the hits are exactly the live entities that satisfy the query, each once, in file order |
| User.DeleteRoot | dbms/src/user/user.c:103-103 | deleting a root removes exactly its tree and keeps the database invariant |
| User.WriteRoot | dbms/src/user/user.c:79-79 | writing a root adds exactly one tree of that type, or fails keeping every old tree; it keeps the type links live if its own is, and records led if the tree's are |
| User.SprungFresh | dbms/src/file/file.c:106-142 | in whatever a write of a tree has made, finished or not, at most the root satisfies a query that misses everything inside the tree |
| User.SpellsFresh | dbms/src/file/file.c:106-142 | the same of a finished root, if no node strictly inside the tree satisfies the query |
| User.RootWritten | dbms/src/file/file.c:106-142 | a root write, finished or not, keeps every part of the database invariant |
| User.DeleteOne | dbms/src/user/user.c:101-107 | one turn of the delete loop removes exactly the current root, keeps the iterator right, and leaves a query that only roots satisfy |
| User.UserDelete | dbms/src/user/user.c:94-112 | for every query that only roots satisfy, with or without a type name: terminates and succeeds with as many turns as there are hits; exactly the trees whose root satisfied the query are gone, every other tree is unchanged at its old offset, nothing satisfies the query any more, and with a type name every root of a type of another name is kept |
| User.UpdateOne | dbms/src/user/user.c:122-129 | one turn of the update loop replaces the current root by one new root of the same type that spells out the new tree, and keeps the iterator right |
| User.ReplacedAgain | dbms/src/user/user.c:122-129 | a replacement that is met and replaced again still leaves one new root per old one |
| User.UpdatingStop | dbms/src/user/user.c:122-129 | what a failed turn leaves: the hits before the lost one replaced, those behind it intact |
| User.UserUpdate | dbms/src/user/user.c:114-134 | for every query that only roots satisfy, and every new tree inside which nothing satisfies it: terminates; on success each old hit has become exactly one new root of its type that spells out the new tree, all other trees are unchanged, what satisfies the query afterwards is all new roots or none, as the new tree does or does not, and in the latter case the loop makes one turn per hit; on failure the hits before the lost one are replaced, that one is gone, all others are intact, and if the new tree fits no section the very first hit is lost; with a type name every root of a type of another name is kept, whatever the outcome |
| User.OtherTypesKept | dbms/src/query/query.c:54-63 | a root whose type has another name than the query asks for does not satisfy it |
| Database.OpenFile | dbms/src/user/user.c:18-26 | a new database is empty and sound |
| Database.UserAddType | dbms/src/user/user.c:33-37 | adds the type and leaves every tree and every other type alone |
| Database.UserDeleteType | dbms/src/user/user.c:38-41 | removes the first type of that name; the database stays sound if and only if no tree refers to it and the lowest record left in its section does not begin with a zero byte |
| Database.IsApplyType | dbms/src/json/json.c:172-204 | the loop over the `next` links decides what its recursive form decides |
| Database.AppliesExact | dbms/src/json/json.c:172-204 | whatever is no object is accepted; with `next` NULL inside a tree an object is accepted if and only if the type has no attribute, or just one that is the first son's; what is accepted has all attributes among its sons, in order |
| Database.UserWrite | dbms/src/user/user.c:67-84 | on success exactly one new root of the found type spells out the tree and all old trees are unchanged; the database is then sound if and only if the name is not empty or the lowest of the nameless types and free slots in the file before the call is a live type; it fails only for a missing type, a rejected tree, a node that fits no section, or a file that cannot grow |
| Database.NamelessIs | dbms/src/file/file.c:78-94 | whether a look-up takes a live type is told from the name and the catalogue before it |
| Database.RoundTrip | dbms/src/file/file.c:106-170 | a stored root reads back as the tree that went in, with its strings copied as C strings: unchanged if and only if they are C strings |
| Database.ReadAll | dbms/include/network/driver.hpp:36-42 | running a read to its end collects all hits of all sections in list order, each once, and changes nothing |
| Session.UserRead | dbms/src/user/user.c:86-92 | leaves an iterator that has all hits of all sections still to come |
| Session.Apply | dbms/src/user/user.c:33-134 | every command keeps the database sound and has its effect: an added type is there, once, or it fits no section or the file cannot grow; a dropped type is gone, the lowest of that name, or there is none; an insert adds exactly one root that spells out its tree under the found type, or fails for a missing type, a rejected tree, a node that fits no section or a file that cannot grow; a delete succeeds and leaves exactly the roots that did not satisfy its query; an update has replaced all hits, or the ones before the one it lost; a read succeeds and changes nothing; an update or delete touches only trees whose root satisfies its query, any other command touches no tree at all |
| Session.TypedQueriesOk | dbms/src/file/file.c:124-137 | queries with type names meet what a run asks of its queries, on any database |
| Session.RunStep | dbms/src/user/user.c:33-134 | what is asked of a run before it starts holds again before each of its commands |
| Session.Run | dbms/src/user/user.c:33-134 | over every run of type additions and deletions, inserts, reads, updates and deletes, failing or not, the database stays sound, there is one database between each two commands from the first to the last, each command having its effect on the one before it, and a tree that satisfies none of the run's update and delete queries as it stands before is unchanged after the run |
| Update.RawLegible | dbms/src/section/extents.c:141-227 | writing an entity into a free range of its section leaves every other entity legible |
| Update.InnerDrop | dbms/src/section/extents.c:178-201 | deleting an entity whose record is not at the border moves neither pointer |
| Update.LegibleReads | dbms/src/section/extents.c:50-85 | whoever reads at a legible entity's offset gets that entity, its key and its value |
| Update.UpdateBorder | dbms/src/section/extents.c:153-176 | the border record is replaced in place of its old space and the free space below, and the header is in step again |
| Update.UpdateGap | dbms/src/section/extents.c:202-222 | the new record goes into the old one's gap; the header in memory is restored, the one on disk is stale |
| Update.UpdateMove | dbms/src/section/extents.c:178-201 | the record moves into the free space if that has room for an entity as well; otherwise the entity is lost and lip is wrong |
| Update.ExtUpdate | dbms/src/section/extents.c:141-227 | says exactly when the update succeeds; on success the slot holds the new entity, key and value, every other entity is as before, and free_space equals frp - lip; says exactly when the header on disk agrees afterwards, and what a failure leaves |
| LinkedList.List.Add | dbms/include/utils/list.h:34-47 | appends a node behind the tail, writing only the old tail's link |
| LinkedList.List.DelFst | dbms/include/utils/list.h:48-64 | removes the first node, if there is one |
| LinkedList.List.DelNxt | dbms/include/utils/list.h:65-78 | removes the node behind a given one, if there is one, and moves the tail when it was the last |
| LinkedList.List.AddLkSet | dbms/include/utils/list.h:79-98 | appends a node if and only if no equal one is listed |
| LinkedList.MoveAll | dbms/src/object/type.c:40-50 | appending the nodes of one list to another while walking the first moves all of them in order, and leaves the first list empty |
| TypeObject.TypeCpy | dbms/src/object/type.c:35-51 | the copy has the name, through strncpy, and all attributes in order; the original keeps its name and loses its attributes |
| Witnesses.FalseIsOverrun | dbms/src/section/header.c:82-97 | from an empty section: a stored `true`, then a stored `false`; deleting the first leaves an unsound section |
| Witnesses.UpdateLoses | dbms/src/section/extents.c:178-201 | from an empty section: an update to a longer record fails, its entity is deleted, and lip lies below a live entity |
| Witnesses.UpdateStale | dbms/src/section/extents.c:202-222 | from an empty section: an update to a record of the same size succeeds and leaves another header on disk than in memory |
| Witnesses.ConformingRejected | dbms/src/json/json.c:172-204 | an object with both attributes of its type, in order, is rejected |
| Witnesses.TypeInUse | dbms/src/user/user.c:38-41 | from an empty file: a type is dropped although a root refers to it |
| Witnesses.EmptyNameUnsound | dbms/src/user/user.c:67-84 | from an empty file: two types, the lower one dropped, and an insert under the empty name that succeeds with a type link to the zeroed slot |
| Witnesses.UntypedDeleteDangles | dbms/src/user/user.c:94-112 | from an empty file: the first turn of a delete whose query has no type name hits a second son, and afterwards a live brother link leads to a dead entity |
| Witnesses.SampleRuns | dbms/src/user/user.c:33-134 | from an empty file: a run that adds a type, inserts a tree of it and deletes all trees of it; all three succeed, the tree is there in between, and afterwards there is no entity |

## Left out

- Input and output errors: reads and writes of the file are total, and what was never written reads as zero. The one failure kept is a file that cannot grow beyond 2^63 - 1 bytes; `file_write`, `file_add_type` and the commands fail there.
- File.File.AddSectExt: at that limit it returns without a change; the source ignores the status of the section constructor, lists the section all the same and moves lst_sect_ptr on, and the write into that section is what fails.
- File.File.AddSectTypes: the same.
- Memory: malloc, free and leaks, and the destructors `file_dtor` and `sect_dtor`, which write zeroed headers.
- `file_update`: no command uses it; it writes to a section pointer that may be NULL and reads an offset that may be unset.
- Chained runs of `sect_ext_update`: the model takes one step from a section that only writes and deletes have touched. A moved record breaks the order that later border steps rely on.
- Update.ExtUpdate: requires a non-empty record at the updated slot, and when the record has to move, that the section can be scanned after the delete; other updates need nothing of the stored bytes.
- `sect_head_cmp` and the comparators built on it, which compare pointers made from offsets and are not called.
- String and float comparisons in conditions: `Query.OtherTest` stands for any predicate on the node, since `strstr` and `strcmp` run on buffers without a final NUL. A number or flag test on a string node, where the source compares bytes of an address, is the arbitrary predicate `stray`.
- User.UserDelete: requires led records in the database and a query that only roots satisfy; a delete or update that hits nodes inside trees is modelled up to one `file_delete` (`Sons.DeleteAny`), not as a whole command.
- User.UserUpdate: has the same two requirements, and the new tree must be led, have no brothers, and have no node strictly inside that satisfies the query.
- FileForest.FileDelete: requires that each of its single deletes leaves a section that can be scanned (`FileForest.Scans`). The first one that does not leaves an unsound file (`File.File.ExtDelete`), and what further deletes do to that is not modelled.
- Sons.DeleteAny: requires the same, and that no piece of a failed write is around (`Sons.NoLooseTops`): such a piece keeps the offset of a dad that has no link to it, and deleting it writes over whatever lies at that offset by then.
- Session.Run: requires of inserts that the type name is not empty, of type deletions that no tree refers to that name and that type names hold no NUL, and of the queries of updates and deletes that only roots satisfy them in the database and in the trees that the run writes.
- FileForest.FileWrite: after a failure the entities written so far stay in the file, as in the source; they are kept as further trees of the forest.
- FileForest.FileRead: requires an offset that holds a live entity or a zeroed slot, or lies outside all sections; other offsets read arbitrary bytes.
- FileTypes.ReadType: requires an offset of a live type or a zeroed slot, or one outside all type sections; other offsets read arbitrary bytes.
- The section lists, the iterator's list of hits and the query's list of conditions are sequences in `File`, `Iterator` and `Query`. `LinkedList` proves of the generated list that its operations do to its contents what those modules do to their sequences; only `TypeObject` is built on it. A JSON node is a value, so aliasing between nodes in memory is not captured, and its `foff` field is carried beside it in `Find.Found`.
- Opening an existing file: `user_open_file` truncates it, so nothing is ever loaded from an old file.
- The GraphQL-like client, protocol buffers, gRPC services, benchmarks and tests.
