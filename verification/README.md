# BigBox containers, schedulers, codecs and matchers: a verified model

BigBox is a C toolbox. This project models its self-contained algorithms in Dafny, one module or
a few per C file, and proves what each of them is for:

- `RbShape`, `RbRotate`, `RbBalance`, `RbSplice`, `RbAugment`, `RbTree`, `RbRun`: the red-black tree
  with parent links, its insert and erase fix-ups, its augmentation pass, the map of map.c on it, and
  runs of that map from the empty tree on.
- `SafeListChain`, `SafeListState`, `SafeListMotion`, `SafeListSpec`, `SafeList`: a list that
  callbacks may change while several loops run over it.
- `QuickSort`: the three-way quicksort.
- `Regex`: the backtracking matcher, against the language of a pattern.
- `JsonText`, `Json`, `JsonSyntax`, `JsonPrinted`: the JSON printer and parser, and the texts of
  RFC 8259, among them all that is printed.
- `AesField`, `AesTables`, `Aes`, `AesReference`: the AES ciphers, and the cipher of FIPS 197 byte by
  byte.
- `TimerList`, `TimerRun`: the timer list with its truncating clock comparison, and whole runs of a
  program over it.
- `RingBuffer`: the mirrored ring buffer.
- `MessageQueue`: the queue whose bodies and records share one block of memory.
- `HashChain`, `HashSweep`, `HashTable`, `HashRun`: the growing chained hash table, its loop with
  deletions, and runs of it.
- `XmlLinks`, `XmlOrder`, `XmlTree`: the linked XML tree, its walk and its search.
- `Digest` (with `Md5` and `Sha`): the streaming interfaces of MD5, SHA-1 and SHA-256.
- `MinHeap`: the binary heap.
- `Crc` (with `CrcRegister`, `Crc16`, `Crc32` and `CrcExamples`): table-driven and bitwise CRC.
- `Base64`: the base64 arms of the string coder.
- `Links`, `Seqs`: what a doubly linked chain of numbered nodes is, for the hash table and the XML
  tree, and sequences without repetition.

## How the model is set up

Code that changes memory step by step is a class with methods, proved against functions on values;
what the C code promises is then proved about those functions. Nodes that point at each other are
numbered and live in one sequence, a pointer is a number and NULL is 0 (tree and safe list) or -1
(hash table and XML tree). A class whose `Valid` relates it to a mathematical value (a tree shape,
a map, a queue of bytes, a list of messages) keeps that value in a ghost field or computes it.

Allocation always succeeds. C strings are sequences of non-zero characters, and a pointer into one
is the suffix it points at; plain char is taken as unsigned, or the text as 7-bit (regex.c compares
it with unsigned bytes, so that where char is signed a literal byte of 0x80 or more never matches).
Integers are unbounded except where the C code depends on their width: the 64-bit JSON integers, the
32-bit result of `tv_diff`, the two-word MD5 counter, the 32-bit loop test of `MD5Update`, the 64-bit
SHA bit counts, and the bytes and registers of AES and CRC, which are bit vectors. The keys of the
tree are integers, in the order that `strcmp` gives; its values are buffers of bytes.

Comparators, hash functions, augmentation callbacks, compression functions, XML payload tests and
timer callbacks are parameters. The clock is a parameter of `TimerList.Timers.Set`.

Callbacks that re-enter the code are data: a safe-list callback is a list of calls, each a list of
actions (nested loops included), a timer callback a function to a list of actions, a callback of
`hash_foreach` a function to a list of deletions. A hash table's comparison is taken to tell every key
from the NULL that `hash_iter_del` puts in its place.

Where the code does something other than its comments say, the model follows the code:

- `ringbuffer_put_force` empties the buffer when the data overflow it while both mirrors are equal
  (`RingBuffer.RingBuffer.PutForce` states exactly when).
- `mxmlAdd` breaks the links if the sibling it is given is the node itself or if `where` is neither
  before nor after (`XmlTree.XmlTree.Add` states exactly when).
- From a `top` without a child `mxmlWalkNext` goes on to what follows in the whole tree, if anything
  does, and `mxmlFindElement` finds nodes there (`XmlTree.WalkNext`, `XmlTree.RouteEscapes`).
- `tv_diff` is cut to an int, so it is wrong just for times more than about 24.8 days apart
  (`TimerList.TvDiffMeaning`) and puts some of those the wrong way round, such as two that are
  24.9 days apart, but not two that are 49.7 days apart (`TimerList.RightWayMeaning`).
- `parse_string` puts two surrogates together with `|` where it should add, so every second plane
  comes out as the one before (`JsonText.PairMeaning` states exactly which).
- `_minHeapInsert` refuses one pair earlier than it must: cell 0 and the last cell stay unused.
- The quicksort calls `xj_exch`; the exchange defined above it is meant.

## Model

| member | source | states |
|---|---|---|
| RbTree.RbTree.Put | source/fun_struct/map.c:33-65 | The tree is a map from keys to buffers and is updated at one key: an absent key is added with its `size` bytes, a present one gets the string copied into the buffer it has, and a value of size zero is refused; order and red-black properties hold |
| RbTree.CopiedText | source/fun_struct/map.c:56 | The string copied into a buffer is the string read from it, what the buffer holds after it stays, and the buffer keeps its size |
| RbRun.Drive | source/fun_struct/map.c:15-65 | From RB_ROOT, whatever puts, searches and removals follow, each put with a node of its own and within the buffers it finds, the tree is a red-black search tree, holds what the run says and no more, has as many nodes as that has keys, and its height h satisfies 2^h at most (n + 1)^2 |
| RbRun.RunMeaning | source/fun_struct/map.c:33-65 | After a run a key is held if and only if the last operation that concerns it is a put, and then with the string put last, if that was stored whole |
| RbTree.RbTree.Get | source/fun_struct/map.c:15-31 | The node with the key, or none just if no node has it |
| RbTree.RbTree.constructor | source/fun_struct/rbtree.h:61 | RB_ROOT: an empty tree |
| RbTree.RbTree.PutNode | source/fun_struct/map.c:45-65 | From any red-black search tree, searching for a new node's key and adding it keeps links, colours, black heights and key order; the in-order sequence gains exactly that node; it is added just if the key was absent, and otherwise the node that has the key is found and nothing changes |
| RbTree.RbTree.FindPlace | source/fun_struct/map.c:45-60 | The descent by key ends at the node with that key, or at the one empty place where keys to the left are smaller and keys to the right larger |
| RbTree.RbTree.LinkNode | source/fun_struct/rbtree.h:97-104 | The new node becomes a red leaf in the empty place, and nothing outside its neighbours changes |
| RbTree.RbTree.InsertAt | source/fun_struct/rbtree.c:49-112 | Linking a leaf at any empty place and rebalancing gives a valid red-black tree |
| RbTree.RbTree.InsertColor | source/fun_struct/rbtree.c:49-112 | The climbing loop turns a tree with at most one red-red edge into the rebalanced shape, in place |
| RbTree.RbTree.InsertStepL | source/fun_struct/rbtree.c:57-81 | One turn on the left side keeps the loop's invariant and its outcome, and climbs |
| RbTree.RbTree.InsertStepR | source/fun_struct/rbtree.c:82-107 | The mirrored turn does the same |
| RbBalance.InsertFixRB | source/fun_struct/rbtree.c:49-112 | Whatever red leaf is added, the rebalanced shape has a black root, no red-red edge and equal black heights |
| RbBalance.InsertFixOrder | source/fun_struct/rbtree.c:49-112 | Rebalancing after an insertion does not change the in-order sequence |
| RbTree.PutOrder | source/fun_struct/map.c:45-65 | Adding at the search position keeps the keys strictly ordered and adds exactly the new node |
| RbTree.RbTree.RotateLeft | source/fun_struct/rbtree.c:3-24 | A left rotation at any node rotates the shape around it, repairs all parent links and the root, and touches nothing else |
| RbTree.RbTree.RotateRight | source/fun_struct/rbtree.c:26-47 | The mirror image |
| RbRotate.RotateLeftRep | source/fun_struct/rbtree.c:3-24 | The pointer assignments of a left rotation represent the rotated shape, whose nodes and order are the same |
| RbRotate.RotateRightRep | source/fun_struct/rbtree.c:26-47 | The mirror image |
| RbTree.RbTree.Erase | source/fun_struct/rbtree.c:194-261 | Removing any node of a red-black tree leaves a red-black tree with exactly that node taken out of the order, whose stale values are confined to the augmentation path |
| RbTree.RbTree.EraseNode | source/fun_struct/rbtree.c:194-261 | The same at the level of shapes, with the frame: only nodes of the tree change |
| RbTree.RbTree.UnlinkInner | source/fun_struct/rbtree.c:203-240 | A node with two children is replaced by its successor, links and colour included, and the place where a black node is missing is handed on |
| RbTree.RbTree.TakePlace | source/fun_struct/rbtree.c:203-240 | The successor takes over every link of the removed node, in both the direct and the deep case |
| RbTree.RbTree.EraseColor | source/fun_struct/rbtree.c:114-192 | The fix-up loop, with its rotations, turns a tree one black node short on one side into the rebalanced shape, in place |
| RbTree.RbTree.EraseStepL | source/fun_struct/rbtree.c:121-155 | One turn with the short side on the left keeps invariant and outcome and makes progress |
| RbTree.RbTree.EraseStepR | source/fun_struct/rbtree.c:156-188 | The mirrored turn does the same |
| RbTree.RbTree.EraseBlackL | source/fun_struct/rbtree.c:131-153 | Once the sibling is black: the shortage moves up or is settled, as the shape function says |
| RbTree.RbTree.ErasePaintL | source/fun_struct/rbtree.c:131-137 | Both nephews black: the sibling turns red and the subtree of the parent is short as a whole |
| RbTree.RbTree.EraseRotateL | source/fun_struct/rbtree.c:138-153 | A red nephew: rotations give the settled shape, and no place is short any more |
| RbTree.RbTree.EraseBlackR | source/fun_struct/rbtree.c:165-187 | The mirror image |
| RbTree.RbTree.ErasePaintR | source/fun_struct/rbtree.c:165-171 | The mirror image |
| RbTree.RbTree.EraseRotateR | source/fun_struct/rbtree.c:172-187 | The mirror image |
| RbBalance.EraseFixRB | source/fun_struct/rbtree.c:114-192 | From any tree one black node short at one place the rebalanced shape is red-black |
| RbBalance.EraseFixOrder | source/fun_struct/rbtree.c:114-192 | Rebalancing after a removal does not change the in-order sequence |
| RbBalance.ErasedRB | source/fun_struct/rbtree.c:194-261 | Removal of any node keeps the red-black properties |
| RbBalance.ErasedOrder | source/fun_struct/rbtree.c:194-261 | Removal takes exactly the one node out of the in-order sequence |
| RbTree.RemovalSorted | source/fun_struct/rbtree.c:194-261 | Removal keeps the keys in order |
| RbShape.HeightBound | source/fun_struct/rbtree.c:49-261 | A red-black tree of n nodes has height at most 2 log2(n + 1), written as 2^height at most (n + 1)^2 |
| RbSplice.BypassRep | source/fun_struct/rbtree.c:198-202 | Unlinking a node with at most one child represents the tree without it |
| RbSplice.DirectRep | source/fun_struct/rbtree.c:203-240 | A right child without a left child takes the removed node's place |
| RbSplice.LiftRep | source/fun_struct/rbtree.c:203-240 | A deeper successor is lifted out of its place and into the removed node's |
| RbTree.RbTree.First | source/fun_struct/rbtree.c:335-345 | The first node in order, or none |
| RbTree.RbTree.Next | source/fun_struct/rbtree.c:359-385 | The in-order successor, or none after the last |
| RbTree.RbTree.PutAugmented | source/fun_struct/rbtree.c:287-295 | If every node's value is computed from itself and its children, insertion with its augmentation pass leaves it so, whatever rotations happened; the node is added just if its key was absent, and otherwise nothing changes |
| RbTree.RbTree.EraseAugmented | source/fun_struct/rbtree.c:301-333 | Removal between its two augmentation hooks does too |
| RbTree.RbTree.AugmentPath | source/fun_struct/rbtree.c:263-281 | Recomputing one path and the siblings along it makes every value right, if only those could be wrong |
| RbTree.RbTree.AugmentInsert | source/fun_struct/rbtree.c:287-295 | The pass that starts at the new node or its children makes every value right |
| RbTree.RbTree.AugmentEraseBegin | source/fun_struct/rbtree.c:301-320 | The deepest node to revisit, found before the removal |
| RbTree.RbTree.AugmentEraseEnd | source/fun_struct/rbtree.c:326-333 | The pass after the removal makes every value right |
| RbAugment.InsertFixCov | source/fun_struct/rbtree.c:49-112 | Insertion makes only nodes on one path, or siblings along it, stale |
| RbAugment.EraseFixCov | source/fun_struct/rbtree.c:114-192 | So does the fix-up after a removal |
| RbAugment.ErasedCov | source/fun_struct/rbtree.c:301-320 | After removing any node the path from the node found beforehand covers every stale value |
| RbAugment.Recomputed | source/fun_struct/rbtree.c:263-281 | A node whose children are right becomes right when it is recomputed |
| SafeList.SafeList.ForEach | source/fun_list/list_safe.c:44-63 | For every list of things the callback does (deleting any nodes, adding, running nested loops) the loop ends with the list, the visits, the result and every outer loop's next node that `Looped` says; no node comes up twice, old nodes come in list order, every node that stays throughout a full run comes up, and only nodes on the list at the start or added since; live iterators stay live, between the same nodes |
| SafeList.SafeList.RunActions | source/fun_list/list_safe.c:44-103 | A callback's actions change the list and where every waiting loop goes next as `Acts` says, keeping the invariant and every live iterator between the same neighbours |
| SafeListSpec.OneTurn | source/fun_list/list_safe.c:52-59 | A loop visits the node it is at, lets the callback act, and goes on to where it then waits, at the node after the one it visited unless that was deleted |
| SafeListSpec.ActMeaning | source/fun_list/list_safe.c:66-103 | An addition puts the new node last or first; a deletion takes out the node and sends the loops that wait at it to the next one; actions act one after the other |
| SafeListSpec.OnlyListed | source/fun_list/list_safe.c:44-63 | Every node a loop visits is on the list at that moment, and was on it at the start or is new |
| SafeListSpec.BetweenVisits | source/fun_list/list_safe.c:52-59 | Between two visits only the callback changes the list, and the next visit is to the node the loop then waits at |
| SafeListSpec.NotAfterDeletion | source/fun_list/list_safe.c:44-63 | A node that has left the list is not visited from then on |
| SafeListSpec.SameStart | source/fun_list/list_safe.c:44-63 | The first visits, and the list at each, do not depend on what later calls of the callback do, so what is proved of a visit is true of it in a loop that does not end |
| SafeList.SafeList.Del | source/fun_list/list_safe.c:77-103 | A node leaves the ring; the iterators that waited at it, and only they, now wait at its successor |
| SafeList.SafeList.Retarget | source/fun_list/list_safe.c:91-94 | The loop of the deletion renames every waiting iterator and finds the last |
| SafeList.SafeList.MoveIterators | source/fun_list/list_safe.c:88-102 | The chain of the deleted node is put in front of its successor's, back links included |
| SafeList.SafeList.SetIterator | source/fun_list/list_safe.c:9-26 | An iterator is put at the head of the chain of the following node |
| SafeList.SafeList.DelIterator | source/fun_list/list_safe.c:28-34 | An iterator leaves the one chain it is in, through its pointer-to-slot back link |
| SafeList.SafeList.MoveIterator | source/fun_list/list_safe.c:36-42 | An iterator moves on to wait at the node after the given one |
| SafeList.SafeList.Add | source/fun_list/list_safe.c:65-69 | A new node at the end of the ring, with no iterators |
| SafeList.SafeList.AddFirst | source/fun_list/list_safe.c:71-75 | A new node at the front of the ring, with no iterators |
| SafeList.SafeList.constructor | source/fun_list/list_safe.c:3-7 | An empty list with no live iterators |
| SafeListState.LiveInOneChain | source/fun_list/list_safe.c:3-42 | Every live iterator sits in exactly one chain, at one place, that of the node on the list (or the head) that it names |
| SafeListState.InvPush | source/fun_list/list_safe.c:9-26 | Setting an iterator keeps the chains consistent |
| SafeListState.InvDrop | source/fun_list/list_safe.c:28-34 | Removing one does |
| SafeListState.InvDel | source/fun_list/list_safe.c:77-103 | Deleting a node, merging two chains, does |
| SafeListState.InvAdd | source/fun_list/list_safe.c:65-75 | Adding a node does |
| SafeListChain.ChainMerge | source/fun_list/list_safe.c:88-100 | Chains joined through pointer-to-slot links form one chain |
| SafeListMotion.EvolvesDel | source/fun_list/list_safe.c:77-103 | A deletion leaves every live iterator between the same surviving nodes |
| SafeListMotion.EvolvesAdd | source/fun_list/list_safe.c:65-75 | So does an addition |
| SafeListMotion.TourStep | source/fun_list/list_safe.c:52-59 | One turn of the loop keeps: everything before the cursor is visited or gone, nothing is visited twice |
| SafeList.TourEnd | source/fun_list/list_safe.c:44-63 | When the loop reaches the head, every node that survived has been visited, in order |
| QuickSort.QuickSort | source/fun_sort/qsort.c:23-41 | For every array, range and total preorder the range ends sorted and permuted, and nothing outside it changes |
| QuickSort.Sort | source/fun_sort/qsort.c:50-60 | The whole array is sorted and permuted, unless the count or the element size reaches the largest int, when nothing changes |
| QuickSort.Split | source/fun_sort/qsort.c:25-38 | One level: keys at most the pivot, keys equal to it, keys at least it, from both ends to the returned positions |
| QuickSort.Partition | source/fun_sort/qsort.c:28-35 | The loop keeps four zones (equal, less, greater, equal) until the scans meet |
| QuickSort.ScanUp | source/fun_sort/qsort.c:29 | Stops at the first key not below the pivot, or at the pivot |
| QuickSort.ScanDown | source/fun_sort/qsort.c:30 | Stops at the first key not above the pivot, or at the left end |
| QuickSort.SwapAndPark | source/fun_sort/qsort.c:32-34 | A swap and the parking of equal keys keep the four zones |
| QuickSort.GatherLeft | source/fun_sort/qsort.c:37 | The left swap-back loop stops one short and still leaves every left key at most the pivot |
| QuickSort.GatherRight | source/fun_sort/qsort.c:38 | The right one leaves every right key at least the pivot |
| QuickSort.SidesOrder | source/fun_sort/qsort.c:23-41 | Two keys on their sides of the pivot are in order, for any total preorder |
| QuickSort.JoinSorted | source/fun_sort/qsort.c:39-40 | Two sorted parts with pivot keys between them are sorted together |
| QuickSort.RangePermutes | source/fun_sort/qsort.c:23-41 | A permutation that fixes everything outside a range permutes the range |
| QuickSort.Exch | source/fun_sort/qsort.c:11-20 | Two elements change places |
| Regex.MatchPattern | source/fun_regex/regex.c:435-468 | For every token list with its end mark and every text it succeeds just if some prefix of the text (all of it, with a final dollar) is in the pattern's language; a mark out of place stands for the character in its field |
| Regex.MatchStar | source/fun_regex/regex.c:342-360 | It succeeds just if some run of matching characters is followed by a match of the rest |
| Regex.MatchPlus | source/fun_regex/regex.c:362-378 | The same for a run of at least one |
| Regex.MatchQuestion | source/fun_regex/regex.c:380-395 | The same for a run of at most one; an empty pattern matches |
| Regex.ReMatchP | source/fun_regex/regex.c:47-76 | With a caret the match is at 0 or missing; without, the result is the least start below the text length with a match, or -1 |
| Regex.FirstItem | source/fun_regex/regex.c:435-468 | A text is in the language of an item followed by others just if it splits into a stretch for the item and one for the others |
| Regex.StepMeaning | source/fun_regex/regex.c:439-464 | What the first token or two of a pattern ask of the text, for each branch of the matcher |
| Regex.NoItems | source/fun_regex/regex.c:452-455 | The empty pattern matches everything, the lone dollar the empty text |
| Regex.Classes | source/fun_regex/regex.c:246-261 | Which characters the classes take, by their numbers |
| Regex.Literals | source/fun_regex/regex.c:325-340 | The other tokens take the character, or the set, that they hold |
| Regex.ItemsExample | source/fun_regex/regex.c:435-468 | A repeat mark belongs to the token before it, and a dollar counts at the end only, in a pattern with all three marks |
| Json.ParsePrint | source/fun_json/json_config.c:409-439 | Parsing the printed form of any tree, formatted or not and after any blanks, gives the tree back (integers keep their 64 bits, the sign flag of the negative ones) and consumes it all |
| JsonPrinted.Printed | source/fun_json/json_config.c:319-787 | Whatever tree is printed, formatted or not, the text is one of RFC 8259, with its blanks and escapes only, and stands for that tree |
| Json.ValueRoundTrip | source/fun_json/json_config.c:442-787 | The same for a value inside a longer text: exactly its own text is consumed |
| Json.ArrayRoundTrip | source/fun_json/json_config.c:520-628 | The array case |
| Json.ItemsRoundTrip | source/fun_json/json_config.c:520-628 | Elements and separators, to the closing bracket |
| Json.ObjectRoundTrip | source/fun_json/json_config.c:631-787 | The object case |
| Json.MembersRoundTrip | source/fun_json/json_config.c:631-787 | Names, colons, values, separators and indentation, to the closing brace |
| Json.IntRoundTrip | source/fun_json/json_config.c:112-208 | A printed integer is read back modulo 2^64, from the signed and from the unsigned form |
| Json.PrintCanonical | source/fun_json/json_config.c:484-787 | The tree that comes back prints as the same text |
| JsonText.StringRoundTrip | source/fun_json/json_config.c:213-385 | A printed string is read back exactly, up to the closing quote |
| JsonText.EscapedChar | source/fun_json/json_config.c:240-308 | Each printed character, plain, short escape or four-digit escape, is read back as itself |
| JsonText.Utf8RoundTrip | source/fun_json/json_config.c:278-302 | The bytes written for a character are its UTF-8 form: the lead byte, the number of bytes and the trailing bytes of each range |
| JsonText.ParseString | source/fun_json/json_config.c:213-316 | The two passes over a string compute its meaning, surrogate pairs included, and the unescaped text always fits the buffer the first pass sized; `JsonSyntax.StringRead` says what that meaning is |
| JsonText.PairMeaning | source/fun_json/json_config.c:267-277 | Two surrogates are put together right if and only if their character is in a plane of odd number; otherwise the character in the plane before comes out |
| JsonSyntax.StringRead | source/fun_json/json_config.c:213-316 | Every string of the standard, with its plain characters, letter escapes, four hex digits in either case and pairs the code gets right, is read as the characters it stands for, and exactly its text is consumed |
| JsonSyntax.UnitRead | source/fun_json/json_config.c:260-302 | A `\u` escape of any character but a surrogate, its digits most significant first in either case, is read as that character's UTF-8 form |
| JsonSyntax.NumberRead | source/fun_json/json_config.c:112-160 | A sign, the digits and an exponent of zero in any spelling are read as the integer modulo 2^64 |
| JsonSyntax.Lenient | source/fun_json/json_config.c:112-130 | Beyond the standard one leading zero and a sign without digits are read as numbers, and every character up to 32 is a blank |
| JsonSyntax.ValueRead | source/fun_json/json_config.c:442-689 | Every text of the standard without fractions, with any blanks, escapes and spellings, is read as the value it stands for, and exactly its text is consumed |
| JsonSyntax.TextRead | source/fun_json/json_config.c:409-422 | The same for a whole text with blanks in front |
| JsonSyntax.KindRead | source/fun_json/json_config.c:442-481 | The first character decides the kind of value, and nothing else is read |
| JsonSyntax.Separators | source/fun_json/json_config.c:518-689 | After an element or a member only a comma or the bracket is right, after a name only a colon |
| JsonSyntax.PrintedArray | source/fun_json/json_config.c:561-627 | The layout of an array of two |
| JsonSyntax.PrintedObject | source/fun_json/json_config.c:691-787 | The layout of an object of two members, formatted and not |
| JsonSyntax.PrintedEmpty | source/fun_json/json_config.c:561-787 | The layout of an empty array and of an empty object, and the tabs of a depth |
| JsonText.PrintStringPtr | source/fun_json/json_config.c:319-385 | The two passes compute the escaped text, which fills the buffer the first pass sized exactly |
| JsonText.DecimalValue | source/fun_json/json_config.c:178-208 | The decimal digits of a number have that value |
| Json.PrintInt | source/fun_json/json_config.c:178-208 | The branches on 32-bit ranges lose nothing |
| Json.ParseNumber | source/fun_json/json_config.c:112-160 | Sign, leading zero, digits and a zero exponent give the integer modulo 2^64 |
| Json.PrintValue | source/fun_json/json_config.c:484-517 | Writes the text of a value |
| Json.PrintArray | source/fun_json/json_config.c:561-628 | Writes the text of an array, within the length computed first |
| Json.PrintObject | source/fun_json/json_config.c:692-787 | Writes the text of an object, within the length computed first |
| Json.ParseValue | source/fun_json/json_config.c:442-481 | Reads a value as the grammar functions do, errors included |
| Json.ParseArray | source/fun_json/json_config.c:520-558 | Reads an array as the grammar functions do; a text that starts with no bracket is a failure |
| Json.ParseObject | source/fun_json/json_config.c:631-689 | Reads an object as the grammar functions do; a text that starts with no brace is a failure |
| Json.Parse | source/fun_json/json_config.c:409-422 | Skips blanks and reads a value |
| Json.Skip | source/fun_json/json_config.c:401-406 | Drops leading blanks |
| Aes.DecryptEncrypt | source/fun_other/aes.c:378-438 | The inverse cipher undoes the cipher for every block, every sequence of round keys and every number of rounds from 1 to 255 |
| AesReference.EncryptIsReference | source/fun_other/aes.c:378-407 | The cipher is the one of section 5.1 of FIPS 197, written byte by byte on stored blocks, for every block, all round keys and every number of rounds |
| AesReference.Example | source/fun_other/aes.c:378-407 | The block of appendix C.1 of FIPS 197 is enciphered, under its expanded key, to the block given there |
| AesReference.KeyBytes | source/fun_other/aes.c:161-171 | Byte n of a block is added to byte n of the round's key |
| AesReference.MixedBytes | source/fun_other/aes.c:178-195 | Byte i of a column becomes {02} times itself plus {03} times the next plus the two after that |
| AesReference.ShiftedBytes | source/fun_other/aes.c:222-241 | Byte i of column j comes from column j + i |
| AesReference.SubstitutedBytes | source/fun_other/aes.c:271-283 | Every byte goes through the table |
| Aes.ShiftedAt | source/fun_other/aes.c:222-241 | Row i of the state moves left by i places, byte by byte |
| Aes.Cipher | source/fun_other/aes.c:378-407 | The in-place rounds compute the encryption function, which `AesReference.EncryptIsReference` ties to the standard |
| Aes.InvCipher | source/fun_other/aes.c:409-438 | The in-place rounds compute the decryption function |
| Aes.UndoRounds | source/fun_other/aes.c:391-427 | Each round of the inverse cipher undoes one round of the cipher, from the last to the first |
| Aes.MixColumnsInverse | source/fun_other/aes.c:178-216 | The inverse column mix undoes the column mix |
| Aes.SubBytesInverse | source/fun_other/aes.c:271-301 | The inverse substitution undoes the substitution |
| Aes.ShiftRowsInverse | source/fun_other/aes.c:222-264 | The inverse row shift undoes the row shift |
| Aes.AddRoundKeyInverse | source/fun_other/aes.c:161-171 | Adding a round key twice changes nothing |
| Aes.AddRoundKeyInPlace | source/fun_other/aes.c:161-171 | Column by column the round's key words are added, as `AesReference.KeyBytes` has it byte by byte |
| Aes.MixInPlace | source/fun_other/aes.c:178-216 | Every column is multiplied by the given polynomial |
| Aes.SubBytesInPlace | source/fun_other/aes.c:271-283 | Every byte is replaced through the table |
| Aes.InvSubBytesInPlace | source/fun_other/aes.c:289-301 | Every byte is replaced through the inverse table |
| Aes.ShiftRowsInPlace | source/fun_other/aes.c:222-241 | The nested loops turn row i left by i places |
| Aes.InvShiftRowsInPlace | source/fun_other/aes.c:247-264 | The nested loops turn row i right by i places |
| AesField.GMult | source/fun_other/aes.c:28-44 | The shift-and-add loop computes the product in GF(2^8) |
| AesField.StepsLeft | source/fun_other/aes.c:28-44 | Multiplication is linear in its first factor |
| AesField.StepsRight | source/fun_other/aes.c:28-44 | And in its second |
| AesField.MulComm | source/fun_other/aes.c:28-44 | Multiplication is commutative |
| AesField.MulAssoc | source/fun_other/aes.c:28-44 | Multiplication is associative |
| AesField.MulXTime | source/fun_other/aes.c:37-40 | Multiplying the second factor by x multiplies the product by x, modulo the field polynomial |
| AesField.CoefMult | source/fun_other/aes.c:62-68 | The product of two words as polynomials modulo x^4 + 1 |
| AesField.ProductAssoc | source/fun_other/aes.c:62-68 | That product is associative |
| AesField.MixInverse | source/fun_other/aes.c:180-202 | The two mixing polynomials are inverse to each other |
| AesField.UnmixColumn | source/fun_other/aes.c:178-216 | So mixing any column can be undone |
| AesTables.Unsubstitute | source/fun_other/aes.c:92-131 | The inverse table undoes the table, for all 256 bytes |
| AesTables.SBoxMeaning | source/fun_other/aes.c:92-109 | The table is the affine image of the multiplicative inverse in GF(2^8) |
| AesTables.InverseUnique | source/fun_other/aes.c:92-109 | There is only one such inverse |
| TimerList.Timers.Process | source/fun_timer/timer_list.c:105-126 | It ends whenever callbacks set timers at least 1 ms ahead; it fires exactly the timers that are, turn after turn, first in the list and due, and their callbacks act in between; each of them was listed and due from the start, by the time it then had, and is fired once and less than 1 ms early; afterwards no listed timer is overdue by 1 ms, and every timer that was overdue by 1 ms has fired or was named by a callback |
| TimerList.Timers.FireFirst | source/fun_timer/timer_list.c:113-123 | One turn takes the first timer off and runs its callback, whatever that does; if it sets timers at least 1 ms ahead, within the window, the list stays in order, no timer becomes due and those still due keep their times |
| TimerList.Timers.RunCallback | source/fun_timer/timer_list.c:120-123 | A callback's cancellations and settings act one after the other on the list and the times; set at least 1 ms ahead, within the window, they keep the order and make no timer due |
| TimerList.CallOrder | source/fun_timer/timer_list.c:120-123 | A callback's actions act one after the other |
| TimerList.PlacedBehind | source/fun_timer/timer_list.c:26-35 | A timer goes behind every entry with the same time and in front of any later one |
| TimerList.FiresAgain | source/fun_timer/timer_list.c:111-124 | A turn whose callback sets its timer again leaves it due just if the new deadline compares as due |
| TimerList.EndlessTurn | source/fun_timer/timer_list.c:111-124 | Set 0 ms ahead of a clock that stands still, the only timer is due again after the turn and nothing has changed, so the loop does not end |
| TimerList.IdleTurns | source/fun_timer/timer_list.c:111-124 | With idle callbacks the fired timers are the front of the list, in order |
| TimerList.Timers.Add | source/fun_timer/timer_list.c:18-39 | A timer goes before the first one that compares later; the list stays ordered to 1 ms just if every comparison the scan makes is the right way round |
| TimerList.Timers.Set | source/fun_timer/timer_list.c:41-62 | A timer is taken off if pending and listed again with its new deadline; the list stays ordered just if the scan compares the right way round |
| TimerList.Timers.Cancel | source/fun_timer/timer_list.c:64-73 | A pending timer is taken off, the others keep their order |
| TimerList.Timers.NextTimeout | source/fun_timer/timer_list.c:86-103 | The count for the first timer, or 0 if that is negative; if it fits an int, that timer is due when the wait is over and, in an ordered list, none was 2 ms before |
| TimerList.TvDiffMeaning | source/fun_timer/timer_list.c:4-8 | The comparison is off by less than a millisecond if and only if the count of milliseconds fits an int |
| TimerList.RightWayMeaning | source/fun_timer/timer_list.c:4-8 | It puts two times the right way round if and only if bit 31 of the count says so: always within 24.8 days, and in every other such stretch beyond |
| TimerList.WrapsAround | source/fun_timer/timer_list.c:4-8 | At 24.9 days it is the wrong way round, at 49.7 right again: concrete times |
| TimerList.NotTransitive | source/fun_timer/timer_list.c:4-8 | The comparison is not transitive: three concrete times |
| TimerList.InsertOrdered | source/fun_timer/timer_list.c:26-35 | Insertion before the first later entry keeps every entry less than 1 ms later than any after it if and only if every entry scanned is compared the right way round |
| TimerList.InsertOutOfReach | source/fun_timer/timer_list.c:26-35 | Two concrete times for which the order is lost |
| TimerList.NoneOverdue | source/fun_timer/timer_list.c:111-117 | When the first timer is not due, none is overdue by 1 ms |
| TimerList.NotDueYet | source/fun_timer/timer_list.c:41-62 | A timer set at least 1 ms ahead is not due |
| TimerList.DeadlineMeaning | source/fun_timer/timer_list.c:52-59 | The deadline is the clock plus the milliseconds, for negative ones and unnormalised microseconds too |
| TimerList.CarriedLate | source/fun_timer/timer_list.c:52-59 | A full million of microseconds stays uncarried, as the test has it |
| TimerRun.Drive | source/fun_timer/timer_list.c:18-126 | From no timer on, whatever settings, cancellations and processings follow, each with its times within 24.8 days of the last processing, every state is the one the code's functions give, with the list in order and in the window that starts at that processing; no processing fires a timer twice, or one that is 1 ms early, or leaves one that is 1 ms overdue, or changes a timer that it does not fire and no callback names |
| TimerRun.MovesOn | source/fun_timer/timer_list.c:105-126 | What a processing leaves lies within the window that starts there, so the window can move on with the clock |
| TimerRun.SetFires | source/fun_timer/timer_list.c:41-126 | In every such run a timer that is set and then left alone is fired, or named by a callback, in the first processing that finds it 1 ms overdue, and is fired by none that is 1 ms early |
| TimerRun.CancelledRests | source/fun_timer/timer_list.c:64-126 | In every such run a timer that is cancelled is not fired until it is set again |
| TimerRun.Unchanged | source/fun_timer/timer_list.c:18-126 | A timer that no operation of a stretch of a run names keeps its time and its place on or off the list |
| RingBuffer.RingBuffer.Put | source/fun_buffer/rt_ringbuffer.c:41-82 | As many bytes as fit are appended to the queue, across the end of the pool |
| RingBuffer.RingBuffer.PutForce | source/fun_buffer/rt_ringbuffer.c:90-138 | The last `size` bytes of contents and data stay, unless the data overflow with equal mirrors: then nothing does |
| RingBuffer.RingBuffer.ForceIsExact | source/fun_buffer/rt_ringbuffer.c:90-138 | That condition is exact |
| RingBuffer.ForceExample | source/fun_buffer/rt_ringbuffer.c:118-135 | A concrete overflow that leaves the buffer empty |
| RingBuffer.RingBuffer.Get | source/fun_buffer/rt_ringbuffer.c:144-185 | The oldest bytes are taken off the front, across the end of the pool |
| RingBuffer.RingBuffer.PutChar | source/fun_buffer/rt_ringbuffer.c:191-213 | One byte is appended if there is room |
| RingBuffer.RingBuffer.PutCharForce | source/fun_buffer/rt_ringbuffer.c:221-250 | One byte is appended; a full buffer loses its oldest byte and no other; only a buffer of size zero is left with its write index outside |
| RingBuffer.RingBuffer.GetChar | source/fun_buffer/rt_ringbuffer.c:256-278 | The oldest byte is taken off |
| RingBuffer.RingBuffer.DataLen | source/fun_buffer/rt_ringbuffer.c:284-299 | The number of bytes queued |
| RingBuffer.RingBuffer.constructor | source/fun_buffer/rt_ringbuffer.c:21-35 | An empty queue whose size is rounded down to a multiple of eight |
| RingBuffer.RingBuffer.Reset | source/fun_buffer/rt_ringbuffer.c:305-313 | The queue is emptied |
| RingBuffer.AppendAround | source/fun_buffer/rt_ringbuffer.c:70-79 | Two copies and a mirror flip append to the queue |
| RingBuffer.OverwriteAround | source/fun_buffer/rt_ringbuffer.c:120-135 | Overflowing with different mirrors leaves the last `size` bytes |
| RingBuffer.ForceAround | source/fun_buffer/rt_ringbuffer.c:120-135 | What the wrapping branch of the forced put leaves, in all three cases |
| MessageQueue.MessageQueue.Register | source/fun_buffer/message_queue.c:14-27 | A packed body becomes the newest message; records and bodies still do not overlap |
| MessageQueue.MessageQueue.CleanUp | source/fun_buffer/message_queue.c:29-67 | Exactly the longest completed prefix goes; every other message keeps body, size, state and order, and the layout holds |
| MessageQueue.MessageQueue.Compact | source/fun_buffer/message_queue.c:49-66 | Moving bodies and records within the one block and lowering the starts keeps the layout |
| MessageQueue.MessageQueue.SetState | source/fun_buffer/message_queue.h:22-27 | Changing one record's state changes that message only |
| MessageQueue.MessageQueue.Perform | source/fun_buffer/message_queue.c:14-67 | A registration, a state change or a cleaning carries out its step of a run; a body without room for it and its record is not registered |
| MessageQueue.Drive | source/fun_buffer/message_queue.c:5-67 | Driven through any sequence of these, a queue holds what the run says |
| MessageQueue.MessageQueue.constructor | source/fun_buffer/message_queue.c:5-12 | An empty queue |
| MessageQueue.MessageQueue.Pack | source/fun_buffer/message_queue.h:73-75 | Filling the room at `curr` disturbs no message |
| MessageQueue.Registered | source/fun_buffer/message_queue.c:14-27 | A record written below the others keeps every body and record |
| MessageQueue.BodiesMoved | source/fun_buffer/message_queue.c:50-53 | The overlapping move of the bodies leaves the surviving bodies at the start and no record changed |
| MessageQueue.RecordsMoved | source/fun_buffer/message_queue.c:56-58 | The overlapping move of the records leaves the surviving records at the end and no body changed |
| MessageQueue.BumpOne | source/fun_buffer/message_queue.c:61-63 | Lowering one start changes that record only |
| MessageQueue.CleanMeaning | source/fun_buffer/message_queue.c:34-47 | The part removed is complete, and is as long as that allows |
| MessageQueue.RunKeepsOrder | source/fun_buffer/message_queue.c:5-67 | After every run of registrations, state changes and cleanings the queue holds the bodies last registered, in order |
| HashTable.HashTable.Lookup | source/fun_timer/timerfd_hash.c:83-102 | The entry of a key that is in the map, or none |
| HashTable.HashTable.LookAdd | source/fun_timer/timerfd_hash.c:139-176 | The key's entry, new if the key was absent; the map gains at most that key, the count is the map's size and that of the cleared entries, and no mark changes; a new entry is the first of its bucket, in a table that has grown just if it was full |
| HashTable.HashTable.Add | source/fun_timer/timerfd_hash.c:178-197 | The map is updated at the key; the count is the map's size, cleared entries apart, and at most twice the buckets plus one; no mark changes |
| HashTable.HashTable.Del | source/fun_timer/timerfd_hash.c:198-212 | The key leaves the map, whether hash_foreach is at its entry or not; if none is under way, none is afterwards and no entry stays cleared |
| HashTable.HashTable.IterDel | source/fun_timer/timerfd_hash.c:318-353 | An entry leaves the map at once, unless it was cleared before, and no other does; it leaves its chain too, except that the entry hash_foreach is at stays there, cleared, with its mark taken off |
| HashTable.HashTable.ForEach | source/fun_timer/timerfd_hash.c:215-243 | Whatever entries its callbacks delete, the one being visited among them, and whichever ends the loop: it visits what `Swept` says, leaves exactly the entries `Swept` leaves, with their keys and data, in a valid table, and none marked or cleared |
| HashTable.HashTable.Visit | source/fun_timer/timerfd_hash.c:227-240 | One turn: the callback's deletions, the visited entry last, and on to the next entry that is still there |
| HashTable.HashTable.SweepBucket | source/fun_timer/timerfd_hash.c:226-241 | The loop over one bucket does what `Swept` says for it |
| HashSweep.SweptMeaning | source/fun_timer/timerfd_hash.c:223-242 | An entry is visited at most once, and only if it is there at its turn; the entries left are those that no callback deleted; unless a callback ends the loop, every entry left has been visited |
| HashSweep.SweptInOrder | source/fun_timer/timerfd_hash.c:223-242 | Entries are visited in the order of iteration |
| HashRun.Drive | source/fun_timer/timerfd_hash.c:17-353 | From hash_new on, whatever is added, looked up and added, deleted, or pruned by hash_foreach, the table holds what the run says, counts it, and no hash_foreach is left under way |
| HashRun.RunMeaning | source/fun_timer/timerfd_hash.c:139-243 | After a run a key has given data if and only if an operation of the run gave it these and none since has touched it: no hash_add or hash_del of the key, and no pruning of an entry with that key and data |
| HashRun.Prune | source/fun_timer/timerfd_hash.c:215-243 | hash_foreach with a callback that deletes the entries it is called for, if told to, removes from the map exactly those keys |
| HashTable.HashTable.Rehash | source/fun_timer/timerfd_hash.c:104-137 | Every entry moves to the bucket of its hash in a table four times the size; keys, data, marks and the map stay |
| HashTable.HashTable.Begin | source/fun_timer/timerfd_hash.c:261-272 | The first entry in the order of iteration |
| HashTable.HashTable.IterNext | source/fun_timer/timerfd_hash.c:278-296 | The next entry in that order, or none after the last |
| HashTable.HashTable.Entries | source/fun_timer/timerfd_hash.c:261-296 | From the first entry on to the next until there is none, every entry of the table comes up, once |
| HashTable.HashTable.constructor | source/fun_timer/timerfd_hash.c:17-47 | An empty map, with no hash_foreach under way |
| HashTable.MoveOne | source/fun_timer/timerfd_hash.c:120-131 | One turn of the nested loops: what has moved is a table, what has not is as it was |
| HashChain.PushTable | source/fun_timer/timerfd_hash.c:166-173 | An entry pushed onto its bucket's chain keeps links, buckets and keys consistent |
| HashChain.UnlinkTable | source/fun_timer/timerfd_hash.c:338-349 | An entry taken out of its chain does too |
| HashChain.FlatOnce | source/fun_timer/timerfd_hash.c:261-296 | The order of iteration contains every entry exactly once |
| HashTable.InOrder | source/fun_timer/timerfd_hash.c:278-296 | An entry's successor in its chain, or the first entry of a later bucket, is its successor in the order |
| HashChain.MapSize | source/fun_timer/timerfd_hash.c:174 | The map has as many keys as the table has entries |
| HashChain.MapMinus | source/fun_timer/timerfd_hash.c:338-350 | Removing an entry removes its key |
| XmlTree.XmlTree.Add | source/fun_xml/mxml_config.c:1131-1230 | Under a parent that is not below the node: the five links stay consistent, and the node leaves its old family and joins the new one at the place asked for, just if the sibling named is not the node itself and the place is before or after; otherwise no lists of children fit the links. Under itself or a node below it: no lists of children without a cycle fit the links |
| XmlTree.AddedMeaning | source/fun_xml/mxml_config.c:1146-1227 | The node is put in next to the sibling named, on the side asked for, or first or last if that is no child of the parent; it leaves its old list, and nothing else changes |
| XmlTree.XmlTree.New | source/fun_xml/mxml_config.c:1530-1562 | A new node has no children and is the last child of its parent, if it has one; nothing else changes and the links stay consistent |
| XmlTree.XmlTree.Remove | source/fun_xml/mxml_config.c:1495-1523 | The node leaves its parent's list and no other link breaks |
| XmlTree.DetachedMeaning | source/fun_xml/mxml_config.c:1495-1523 | Every list of children is what it was without the node |
| XmlTree.XmlTree.LinkFirst | source/fun_xml/mxml_config.c:1168-1175 | Inserting as first child |
| XmlTree.XmlTree.LinkBefore | source/fun_xml/mxml_config.c:1183-1191 | Inserting before a child; before itself the node follows itself |
| XmlTree.XmlTree.LinkLast | source/fun_xml/mxml_config.c:1202-1210 | Inserting as last child |
| XmlTree.XmlTree.LinkAfter | source/fun_xml/mxml_config.c:1218-1226 | Inserting after a child; after itself the node follows itself |
| XmlLinks.InsertedLinked | source/fun_xml/mxml_config.c:1159-1229 | Linking a node into any gap of any family keeps all links consistent |
| XmlLinks.RemovedLinked | source/fun_xml/mxml_config.c:1510-1522 | Taking any child out does too |
| XmlTree.InsertRanked | source/fun_xml/mxml_config.c:1131-1230 | Adding a node under one that is not below it makes no cycle |
| XmlTree.Broken | source/fun_xml/mxml_config.c:1183-1227 | Links in which a node follows itself, or is in no list of its parent, fit no lists of children |
| XmlTree.Circular | source/fun_xml/mxml_config.c:1150-1157 | A node whose parent is below it makes the parent links go round: no ranking fits them |
| XmlTree.WalkNext | source/fun_xml/mxml_config.c:1648-1673 | For every node, top and descend argument the node that `Following` says. Descending that is the next node in document order, below the top for a node below it and in the whole tree otherwise; not descending it is the node right after everything below the given one in that order, its next sibling if it has one; or none at the end. From a top without a child it is none if and only if nothing that the top is below, itself included, has a next sibling, and otherwise a node outside |
| XmlTree.WalkPlace | source/fun_xml/mxml_config.c:1655-1672 | The same for `Following` |
| XmlTree.WalkMeaning | source/fun_xml/mxml_config.c:1648-1673 | What `Following` is, for those two cases |
| XmlTree.AtLimit | source/fun_xml/mxml_config.c:1657-1672 | A walk turns back at the top for nodes below it, and otherwise at a node without a parent |
| XmlTree.RestNull | source/fun_xml/mxml_config.c:1659-1670 | Nothing follows a node in document order if and only if nothing that it is below, itself included, has a next sibling |
| XmlTree.Climb | source/fun_xml/mxml_config.c:1659-1670 | The climbing loop ends, at what follows in document order |
| XmlTree.WalkAll | source/fun_xml/mxml_config.c:1648-1673 | Repeated walking visits the descendants of the top exactly once each, in document order |
| XmlTree.FindElement | source/fun_xml/mxml_config.c:1567-1637 | From any node, with MXML_DESCEND: the first match after it in the order that `Route` gives; otherwise the first match among the node walked to and its later siblings; or none |
| XmlTree.OnRoute | source/fun_xml/mxml_config.c:1588-1634 | The walk from any place on that order goes on along it: below the top, from there; otherwise through the whole tree, up to the end of what is below the top if the search comes upon it |
| XmlTree.RouteEscapes | source/fun_xml/mxml_config.c:1588-1634 | From a top without a child only nodes outside it are found |
| XmlTree.FindsOutside | source/fun_xml/mxml_config.c:1588-1634 | Three concrete nodes for which the search finds one |
| XmlTree.ChildrenSearched | source/fun_xml/mxml_config.c:1588-1634 | With MXML_DESCEND_FIRST, from a top with children, the children are searched |
| XmlOrder.Successor | source/fun_xml/mxml_config.c:1648-1673 | What follows a node in document order: its first child, or what follows the families it ends |
| XmlOrder.PreNoDup | source/fun_xml/mxml_config.c:1648-1673 | No node comes up twice in document order |
| Md5.Md5.Update | source/fun_algorithm/md5.c:32-61 | The context has absorbed one piece more, and counts its bits in two words modulo 2^64 |
| Md5.Md5.Final | source/fun_algorithm/md5.c:63-74 | The state is the compression folded over the message, padded as RFC 1321 asks |
| Md5.LittleEndian64Value | source/fun_algorithm/md5.c:70-90 | The eight bytes of the length have its value, the low-order word first |
| Md5.InPieces | source/fun_algorithm/md5.c:32-74 | However a message is cut into updates with whose lengths the loop ends, the outcome is that of the whole message |
| Md5.LoopTest | source/fun_algorithm/md5.c:51-52 | The 32-bit sum in the loop test is right at every block if and only if the last whole block ends below 2^32 - 64 |
| Md5.LongestInput | source/fun_algorithm/md5.c:51-52 | A concrete length with which it is wrong |
| Md5.CountUp | source/fun_algorithm/md5.c:40-44 | The two-word addition with its carry counts bits modulo 2^64 |
| Md5.Md5.Blocks | source/fun_algorithm/md5.c:46-55 | The block loop folds every whole block, from the buffered bytes on |
| Sha.Sha.Update | source/fun_algorithm/sha.c:223-236 | The context has absorbed one piece more, byte by byte (SHA-1 and SHA-256) |
| Sha.Sha.Feed | source/fun_algorithm/sha.c:228-234 | One byte, and a block when 64 are there |
| Sha.Sha.Pad | source/fun_algorithm/sha.c:242-256 | The one bit and the zero bits, in the short and in the long case |
| Sha.Sha.Final | source/fun_algorithm/sha.c:238-268 | The state is the compression folded over the message, padded as FIPS 180-4 asks |
| Sha.InPieces | source/fun_algorithm/sha.c:84-129 | However a message is cut into updates, the outcome is that of the whole message (lines 84-129 are SHA-1, the same code) |
| Digest.FoldSplit | source/fun_algorithm/sha.c:223-236 | Folding over two parts, the first a multiple of a block, is folding over the whole |
| Digest.PaddedLength | source/fun_algorithm/md5.c:68-72 | A padded message is a whole number of blocks, with at least one padding byte |
| Digest.PaddingMeaning | source/fun_algorithm/md5.c:14-72 | A padded message is the message, the byte 0x80, as few zero bytes as fill whole blocks, and the length |
| Digest.FoldBlock | source/fun_algorithm/sha.c:223-236 | The compression is applied to the blocks one after the other |
| Digest.LittleEndianValue | source/fun_algorithm/md5.c:76-90 | The four bytes written for a word have its value |
| Digest.BigEndianRoundTrip | source/fun_algorithm/sha.c:259-267 | The eight length bytes have the length's value |
| Digest.BigEndianBytes | source/fun_algorithm/sha.c:259-267 | The first of the eight bytes is the most significant |
| MinHeap.MinHeap.Insert | source/fun_timer/minheap.c:76-108 | The pair joins the heap and the order holds, or the heap is full and nothing changes |
| MinHeap.MinHeap.Pop | source/fun_timer/minheap.c:126-160 | A pair with the least key leaves the heap and the order holds |
| MinHeap.MinHeap.Drain | source/fun_timer/minheap.c:126-160 | Popping until the heap is empty gives all pairs in order of their keys |
| MinHeap.MinHeap.SiftUp | source/fun_timer/minheap.c:90-105 | The upward loop restores the order and keeps the pairs |
| MinHeap.MinHeap.SiftDown | source/fun_timer/minheap.c:142-157 | The downward loop does too |
| MinHeap.MinHeap.MinChildIndex | source/fun_timer/minheap.c:110-124 | A child with the least key, or none |
| MinHeap.MinHeap.constructor | source/fun_timer/minheap.c:24-37 | An empty heap |
| MinHeap.Init | source/fun_timer/minheap.c:13-38 | An empty heap of the given size, or none if that is not positive |
| MinHeap.HeadIsLeast | source/fun_timer/minheap.c:131-132 | The head of an ordered heap is a minimum |
| CrcRegister.TableIsBitwise | source/fun_algorithm/crc_table.c:87-127 | For every polynomial, start value and input the table loop equals the bitwise loop |
| CrcRegister.StepsLinear | source/fun_algorithm/crc_table.c:62-70 | Bit steps are linear over exclusive or |
| CrcRegister.ByteStep | source/fun_algorithm/crc_table.c:91-126 | Eight bit steps of any register are one table step |
| CrcRegister.BitwiseLinear | source/fun_algorithm/crc.c:26-75 | The CRC of an exclusive or of inputs and start values is that of the CRCs |
| CrcRegister.TableLoop | source/fun_algorithm/crc_table.c:87-127 | With a filled table the loop computes the bitwise CRC |
| Crc16.Crc16Tab | source/fun_algorithm/crc_table.c:76-96 | The table form is the bitwise loop started at zero |
| Crc32.Crc32Tab | source/fun_algorithm/crc_table.c:118-129 | The table form is the bitwise loop started at zero |
| Crc16.Crc16 | source/fun_algorithm/crc.c:26-51 | The bitwise loop started at all ones |
| CrcExamples.Crc16Check | source/fun_algorithm/crc.c:26-51 | For "123456789" it is 0x4b37 |
| CrcExamples.Crc16TabCheck | source/fun_algorithm/crc_table.c:76-96 | The table form gives 0xbb3d |
| Crc32.Crc32 | source/fun_algorithm/crc.c:53-75 | The complement of the bitwise loop started at all ones, in a 64-bit register |
| CrcExamples.Crc32Check | source/fun_algorithm/crc.c:53-75 | For "123456789" it is 0xcbf43926 |
| CrcExamples.Crc32TabCheck | source/fun_algorithm/crc_table.c:118-129 | The table form, started at zero and not complemented, gives 0x2dfd2d88 |
| Crc16.BuildEntry | source/fun_algorithm/crc_table.c:59-72 | The loop that feeds a byte in bit by bit computes eight steps of that byte |
| Crc16.FillTable | source/fun_algorithm/crc_table.c:50-74 | Entry i is byte i after eight steps |
| Crc32.FillTable | source/fun_algorithm/crc_table.c:99-116 | Entry i is byte i after eight steps |
| Crc16.NarrowBitwise | source/fun_algorithm/crc.c:26-51 | The CRC-16 never needs more than the 16 bits of its register |
| Base64.RoundTrip | source/fun_cplusplus/core/stropt.cpp:463-487 | Decoding undoes encoding for all bytes and every separator made of blanks, in all three padding cases |
| Base64.StrEncode | source/fun_cplusplus/core/stropt.cpp:463-487 | The loop writes groups of four, with the separator before every nineteenth but the first |
| Base64.StrDecode | source/fun_cplusplus/core/stropt.cpp:575-593 | The loop reads groups of four, skipping blanks between them |
| Base64.QuadRoundTrip | source/fun_cplusplus/core/stropt.cpp:469-590 | One to three bytes come back from their four characters |
| Base64.QuadValue | source/fun_cplusplus/core/stropt.cpp:469-483 | The four characters are the three bytes as one 24-bit number in base 64 |
| Base64.ShortQuadValue | source/fun_cplusplus/core/stropt.cpp:471-479 | The characters of a group of one or two bytes are its bits and as many zero bits as fill the last one, and padding |
| Base64.Alphabet | source/fun_cplusplus/core/stropt.cpp:465 | The alphabet, letter by letter |
| Base64.Layout | source/fun_cplusplus/core/stropt.cpp:463-487 | Where every group and every separator is in an encoded text, and how long that is |
| Base64.DecodeGroup | source/fun_cplusplus/core/stropt.cpp:575-593 | In decoding, any four characters behind any blanks are a group |
| Base64.CodeOfLetter | source/fun_cplusplus/core/stropt.cpp:675-693 | Codes undo the alphabet, in which there is no padding and no blank |
| Base64.SkipSpaces | source/fun_cplusplus/core/stropt.cpp:579 | Blanks between groups do not matter |

## Left out

- Devices, sockets, files, event loops, threads, plugins and shell code: system calls rather than algorithms.
- Red-black tree: `rb_prev`, `rb_last` (mirror images), `rb_replace_node`.
- SafeList.SafeList.ForEach: what the callback does is a finite list of calls, after which it does nothing; every run that ends is of this form, and of a run that does not end (a callback that adds a node on every call, say) every finite number of visits is (`SafeListSpec.SameStart`). Nodes are numbered as they are added: a node that is deleted and added again, which safe_list_add writes anew, counts as another one, and may come up again as that. Nodes are not freed.
- Red-black tree runs: `RbRun.Drive` gives every put a node not used before; `RbTree.RbTree.Put` itself takes any node that is not in the tree.
- Quicksort: elements are values, so the byte-wise exchange is one exchange.
- Regex: the match length, `re_compile`, and the text of character classes, which are sets of characters here.
- JSON: doubles, malformed `\u` escapes and numbers of 2^64 or more (all of them the outcome `Beyond`), the position of a parse error, and the functions that build and take apart trees. A `long double` is taken to hold every integer below 2^64.
- AES: the key expansion; the ciphers are proved for every sequence of round keys.
- TimerList.Timers.Process: termination, and hence the whole contract, asks that callbacks set timers at least 1 ms ahead and that all times fit in one window of 24.8 days; with shorter delays the loop need not end (`TimerList.EndlessTurn`).
- TimerRun.Drive: asks that no time used lies 1 ms before the last processing or 24.8 days after it.
- Ring buffer: `ringbuffer_create` and `ringbuffer_destroy`.
- Message queue: `mq_find` and the packing macro; records are 24 bytes, as with 64-bit pointers.
- HashTable.HashTable.ForEach: asks that a callback deletes entries that are there, each once, and adds none (an addition may move the entries to another table under the loop).
- Hash table: `hash_iter_prev`, which skips bucket 0, `hash_clear` and freed memory.
- MessageQueue.MessageQueue.Register: asks for room for the record below the others, which the macros that pack a body leave and the function does not test.
- XML: payloads, attributes, text parsing and writing, and `mxmlWalkPrev`.
- Md5.Md5.Update: asks that the last whole block ends below 2^32 - 64, where the 32-bit sum in the loop test would wrap and the loop read on past the input without end (`Md5.LoopTest` has the exact condition).
- Digests: the compression functions and the encoding of the final state into bytes.
- Heap: 32-bit overflow of the child index, beyond 2^30 cells.
- CRC-8 and the 64-bit polynomial: the CRC-8 table belongs to another polynomial than the bitwise loop.
- Base64: of text with characters outside the alphabet nothing is proved but how it is cut into groups.
