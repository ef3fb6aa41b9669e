# statsd-c in Dafny

A model of the parts of statsd-c where its logic is hard, with proofs about them. Each module models one source file
or one mechanism; loops, in-place updates and pointer surgery are written as Dafny methods over arrays and objects and
proved against functions on values, and the theorems are about those functions and about all runs of them.

- **json-c** (`src/json-c`). `Printbuf`, `Printer` and `Lexemes` model printing. `Automaton` gives the tokener its
  meaning, one character at a time; `Tokener` is `json_tokener_parse_ex` with its stack, tight loops and `goto`s, and
  refines it. `RoundTrip` proves that parsing undoes printing, and for which trees. `Grammar` proves that every text of
  a larger language is parsed to what it means. `Truncation` finds out when a text
  that stops inside a container is accepted. `RefCount` and `Ownership` follow the reference counts through every run
  of the tokener. `LinkHash` (with `Ring`) is the open-addressing table with its insertion-order list, `ObjectStore`
  the object operations on it, `ArrayList` the growing array.
- **uthash** (`src/uthash`). `Kmp` (with `Texts`) is substring search in both directions. `ListSort` is the in-place
  merge sort of `utlist.h` and `uthash.h` in its four list shapes. `UtHash` (with `Words` and `Bags`) is the
  chained hash with bucket doubling.
- **modp_numtoa.c**: `NumToA`.
- **The daemon** (`src/queue.c`, `src/statsd.c`, `src/serialize.c`). `PacketQueue`, `Metrics` and `Counters` are
  stepped concurrent systems, one action for each statement that matters; `Serialize` is saving and restoring.

Characters stand for bytes. C integers are unbounded unless a width matters: 32-bit JSON integers, the conversion of
`long` stats to `int` and the `\u` accumulator are written out. `double` and `long double` are real numbers.

## Findings

Promises that do not hold in general are proved with their exact condition, or with a run that breaks them.

- `json_tokener_parse` can accept a text cut off inside a container and return the inner value: exactly when the text
  ends inside a comment behind a complete element (`Truncation.InnerValueIff`, `Truncation.TruncatedArray`).
- A block comment that would end in two stars and a slash goes on: behind a star the tokener looks for the slash only,
  and takes a second star for part of the text (`Grammar.StarsHideSlash`).
- A linkhash lookup of an absent key ends if and only if an EMPTY slot exists, and deletions never make one: under any
  hash, adding and deleting sixteen keys with different home slots leaves an empty object in which no lookup ends, and
  sixteen letters are such keys under the hash the library uses (`LinkHash.LookupEndsIff`, `ObjectStore.ChurnedObject`,
  `ObjectStore.ChurnedLetters`). Runs of additions alone keep an EMPTY slot.
- `modp_dtoa` is within half a unit of the last place except for an exact tie above an all-nines fraction, where it
  writes one digit too many (`NumToA.CorrectlyRoundedIff`, `NumToA.TieText`, `NumToA.TieExample`). The condition is
  over the real numbers: no binary double is exactly such a tie, so the code meets it only through the rounding of
  `(value - whole) * pow10[prec]`.
- `modp_itoa10` gives the text of `printf` except for the least value, whose negation wraps around to itself
  (`NumToA.Itoa10`).
- Saving and restoring gives back the state exactly when group names have no dot, stats fit an `int`, timer counts
  match and doubles are whole millionths (`Serialize.SaveRestoreIff`).
- A counter update that lands between the report of a counter and its reset is lost, and nothing else is
  (`Counters.Reconciled`, `Counters.ResetLoses`, and a run with `Counters.LostUpdate`).
- The flush thread prints the count of a timer after clearing it, so what it prints for a batch is the number of values
  that came in since (`Metrics.PrintedCount`, `Metrics.PrintedZero`).
- Every overrun of the packet ring loses one packet for good; it happens exactly when a store finds `N` packets waiting
  (`PacketQueue.OverrunIff`, `PacketQueue.LostForGood`, `PacketQueue.VictimNeverPopped`, `PacketQueue.OverrunHappens`).
- `lh_table_resize` to a size that is too small for the entries leaves a size that is not that of the table; the
  library itself never asks for one (`LinkHash.Table.Resize`).
- `HASH_ADD` takes a key that is present already; the table stays in order, but its keys are then not distinct
  (`UtHash.Table.Add`).

## Model

| member | source | states |
|---|---|---|
| Automaton.Dispatch | src/json-c/json_tokener.c:182-606 | Every pass through the switch keeps the stack discipline (depth below 32, each lower level waiting with its container and key), and every `goto redo_char` lowers a rank, so a character is finished in finitely many passes. |
| Automaton.StartMove | src/json-c/json_tokener.c:203-258 | The start of a value stays within its level and leaves it in order. |
| Automaton.NullMove | src/json-c/json_tokener.c:267-282 | Reading `null` stays within its level; a redo lowers the rank. |
| Automaton.BooleanMove | src/json-c/json_tokener.c:430-453 | Reading `true` or `false` stays within its level; a redo lowers the rank. |
| Automaton.StringMove | src/json-c/json_tokener.c:337-360 | Strings and keys share a loop that stays within its level. |
| Automaton.EscapeMove | src/json-c/json_tokener.c:362-389 | An escape that goes on appends one character (which one: RoundTrip.EscapeTakes) and leads back to the string or key it is in, or starts a unicode escape if it is a `u`. |
| Automaton.UnicodeMove | src/json-c/json_tokener.c:391-428 | A hexadecimal digit, for which the terminator passes too, is consumed; the fourth one leads back to the string or key, and whatever else comes is an error. |
| Automaton.DigitsConsumed | src/json-c/json_tokener.c:391-428 | An escape takes exactly four digits, in one call or over several, and adds up their values. |
| Automaton.NumberMove | src/json-c/json_tokener.c:455-486 | The number case stays within its level; the end of the lexeme is a redo of lower rank. |
| Automaton.BlankMove | src/json-c/json_tokener.c:187-201 | White space and comments keep the saved state and what it needs. |
| Automaton.ArrayMove | src/json-c/json_tokener.c:488-521 | Array cases keep the discipline; depth 31 is the last at which an element may start. |
| Automaton.ObjectMove | src/json-c/json_tokener.c:523-601 | Object cases keep the discipline; a member value needs its key. |
| Automaton.FinishMove | src/json-c/json_tokener.c:260-265 | A finished level hands its value to a level that waits for one. |
| Automaton.ChunksInvisible | src/json-c/json_tokener.c:173-619 | However a text is cut into calls, tokener, error and position end as in one call on the whole. |
| Automaton.RunAppend | src/json-c/json_tokener.c:152-168 | A call that used up its text is continued by a call on the next text. |
| Automaton.ContinueUsesAll | src/json-c/json_tokener.c:152-160 | `continue` is reported only when the whole text was used up. |
| Automaton.NulHalts | src/json-c/json_tokener.c:603-613 | A call never gets past a terminator. |
| Automaton.ParseStops | src/json-c/json_tokener.c:603-619 | What follows the terminator has no influence. |
| Automaton.ObjIrrelevant | src/json-c/json_tokener.c:176-178 | The local `obj` matters only to the two states that store a value. |
| Tokener.JsonTokener.ParseEx | src/json-c/json_tokener.c:173-619 | The imperative tokener, with tight loops, stack array and offsets, ends in the state, error and position the automaton gives, for every state it can be called in and every text. |
| Tokener.Parse | src/json-c/json_tokener.c:93-105 | The one-call form returns what the automaton says for the text. |
| Tokener.JsonTokener.Switch | src/json-c/json_tokener.c:180-603 | One execution of the switch keeps the outcome of the run and makes progress. |
| Tokener.JsonTokener.SkipSpace | src/json-c/json_tokener.c:187-193 | The white-space loop consumes what the automaton would, character by character. |
| Tokener.JsonTokener.SkipComment | src/json-c/json_tokener.c:296-309 | The comment loop gathers what the automaton would. |
| Tokener.JsonTokener.SkipLine | src/json-c/json_tokener.c:311-325 | The same for line comments. |
| Tokener.JsonTokener.GatherString | src/json-c/json_tokener.c:337-360 | The string loop with its single append equals appending one by one. |
| Tokener.JsonTokener.GatherNumber | src/json-c/json_tokener.c:455-471 | The number loop, which also notes what makes a double, equals the automaton. |
| Tokener.JsonTokener.GatherUnicode | src/json-c/json_tokener.c:391-428 | The digit loop can stop after any digit and be resumed. |
| Tokener.JsonTokener.Reset | src/json-c/json_tokener.c:81-91 | A reset tokener is like a new one but for its scratch fields. |
| Tokener.JsonTokener.PushLevel | src/json-c/json_tokener.c:497-500 | Levels above the one in use hold no pointer, so opening one puts NULL. |
| Printer.Print | src/json-c/json_object.c:192-202 | The printer methods write the text the specification gives, for every tree; no control character is ever printed, and a string is quoted and spelled character by character. |
| Printer.EscapeStr | src/json-c/json_object.c:84-125 | Run by run, the loop writes the escaped string. |
| Printer.EmitEscape | src/json-c/json_object.c:98-119 | Each escaped character is written as its two or six characters. |
| Printer.StringSpelled | src/json-c/json_object.c:84-125 | The written text spells the string: a control character without a letter of its own as `\u00` and the two hexadecimal digits of its value. |
| Printer.PrintedClean | src/json-c/json_object.c:84-125 | The text of a tree has no control character. |
| Printer.ObjectToJsonString | src/json-c/json_object.c:207-227 | Members in insertion order, with keys escaped. |
| Printer.ArrayToJsonString | src/json-c/json_object.c:442-457 | Elements in order. |
| Printer.EscapeAppend | src/json-c/json_object.c:84-125 | Escaping works piece by piece, so runs may be flushed anywhere. |
| Printbuf.Buffer.MemAppend | src/json-c/printbuf.c:45-62 | Appending extends the contents and keeps a terminator behind them, growing when needed. |
| Printbuf.Buffer.MemAppendFast | src/json-c/printbuf.h:42-49 | The fast path has the same contract. |
| Printbuf.Buffer.Reset | src/json-c/printbuf.c:128-132 | Resetting empties the contents. |
| RoundTrip.ParsePrinted | src/json-c/json_tokener.c:173-619 | For every tree, parsing its text gives the tree with doubles rounded to millionths and equal keys merged if it is at most 31 high, and the depth error otherwise. |
| RoundTrip.RoundTripIff | src/json-c/json_object.c:84-457 | Parsing undoes printing if and only if height is at most 31, doubles are whole millionths and keys are distinct. |
| RoundTrip.ExactIff | src/json-c/json_object.c:356-360 | Exactly these trees are unchanged by rounding and merging. |
| RoundTrip.ValueGoes | src/json-c/json_tokener.c:173-619 | Reading a printed value on a fresh level leaves its value there, in every context, whatever delimiter follows. |
| RoundTrip.ElemsGo | src/json-c/json_tokener.c:488-521 | Reading printed elements appends them one by one. |
| RoundTrip.MembersGo | src/json-c/json_tokener.c:523-601 | Reading printed members adds them one by one, a repeated key replacing its value and moving to the end. |
| RoundTrip.EscapeGoes | src/json-c/json_tokener.c:337-428 | Reading an escaped string inside quotes gives back the string. |
| RoundTrip.EscapeTakes | src/json-c/json_tokener.c:362-389 | An escape goes on exactly for `u` and for the letters that are printed behind a backslash, and appends the character such a letter is printed for. |
| RoundTrip.ValueTooDeep | src/json-c/json_tokener.c:492-495 | A value that is too high for the level it starts on fails with the depth error. |
| RoundTrip.UnicodeEscapeGoes | src/json-c/json_tokener.c:391-428 | Four hexadecimal digits behind a backslash and `u` append the bytes that a UTF-8 decoder reads as the number they spell. |
| Grammar.TextRead | src/json-c/json_tokener.c:173-619 | Every text is parsed to what it means that is made of words in any case, numbers with fractions and exponents, strings in either quotes with every escape, arrays and objects nested at most 31 deep, with white space and comments between any two tokens and commas behind last elements. |
| Grammar.ValueReads | src/json-c/json_tokener.c:173-619 | The same for one value on a fresh level, in every context, whatever delimiter follows. |
| Grammar.BlanksGo | src/json-c/json_tokener.c:187-335 | White space and comments leave everything but the scratch buffer as it was. |
| Grammar.NumberReads | src/json-c/json_tokener.c:455-486 | Sign, digits, point, digits and exponent are read as the number they denote; behind a capital E without a point the integer has already ended. |
| Grammar.QuotedReads | src/json-c/json_tokener.c:337-428 | A string in either quotes is the text of its characters and escapes up to the first terminator. |
| Grammar.KeyReads | src/json-c/json_tokener.c:523-551 | The same for keys. |
| Grammar.StarsHideSlash | src/json-c/json_tokener.c:327-335 | A comment that would end in two stars and a slash goes on. |
| Grammar.Refused | src/json-c/json_tokener.c:203-601 | Between tokens a character that is no blank goes on exactly if it is welcome to what is due; otherwise the call ends before it, with the error that belongs to what was due, or that of an unexpected end at the terminator. |
| Grammar.RefusedInside | src/json-c/json_tokener.c:284-428 | The same behind a backslash, in a unicode escape and behind a slash. |
| Lexemes.ScanIntText | src/json-c/json_tokener.c:472-480 | Reading back a printed integer gives the integer. |
| Lexemes.ScanDoubleText | src/json-c/json_object.c:356-360 | Reading back a printed double gives it rounded half to even at six decimals. |
| Lexemes.RoundedIff | src/json-c/json_object.c:356-360 | A double comes back unchanged if and only if it is a whole number of millionths. |
| Lexemes.RoundedNear | src/json-c/json_object.c:356-360 | The rounding error is at most half a millionth. |
| Lexemes.DoubleForm | src/json-c/json_object.c:356-360 | A printed double is a sign if negative, digits without needless zeros in front, a point and six digits. |
| Truncation.InnerValueIff | src/json-c/json_tokener.c:608-615 | A C string is accepted with a value from inside a container if and only if it ends in a comment behind a complete element. |
| Truncation.TruncatedArray | src/json-c/json_tokener.c:608-615 | Such a text: an array cut off in a comment is accepted with the value of its first element. |
| Truncation.NulInside | src/json-c/json_tokener.c:608-615 | The same for the terminator met in any reachable state. |
| RefCount.PutRefs | src/json-c/json_object.c:138-144 | Putting references keeps counts equal to owners, recursively through released containers. |
| RefCount.ReleasedCounts | src/json-c/json_object.c:138-144 | When the last owner lets go the node is released and its own references become pending, one step at a time. |
| RefCount.GetCounts | src/json-c/json_object.c:130-136 | A get adds one owner and one count. |
| RefCount.OwnedCounts | src/json-c/json_object.c:496-499 | A container that takes over a reference leaves all counts right. |
| RefCount.NothingLeft | src/json-c/json_object.c:138-144 | With no owner outside, no node is live. |
| RefCount.LiveIsReached | src/json-c/json_object.c:138-144 | When only one node has owners outside, every live node is reached from it. |
| RefCount.ReachedIsLive | src/json-c/json_object.c:138-144 | What is reached from a live node is live. |
| Ownership.PassSound | src/json-c/json_tokener.c:182-603 | Every pass through the switch keeps each count equal to the owners (slots, containers, `obj`), with no leak and no double put. |
| Ownership.PlainMoves | src/json-c/json_tokener.c:203-258 | A level gets a value only when it holds none, so no pointer is overwritten. |
| Ownership.CloseIs | src/json-c/json_tokener.c:260-265 | Get, reset of the level and hand-over change no count in the end. |
| Ownership.ReplacedKeeps | src/json-c/json_object.c:263-268 | Replacing a key releases only what the old value alone owned. |
| Ownership.SuccessKeepsResult | src/json-c/json_tokener.c:64-105 | After any number of successes and `json_tokener_free` counts are owners, and the caller owns each reference it was given. |
| Ownership.FailureFreesAll | src/json-c/json_tokener.c:64-91 | Freeing the tokener of a caller who was given nothing leaves no node live. |
| Ownership.GivenIsResult | src/json-c/json_tokener.c:608-615 | Every call that succeeds returns the same node, and from the first one on no call changes a node or a slot. |
| Ownership.GivenNext | src/json-c/json_tokener.c:608-615 | One more call returns one more reference exactly if it is made and succeeds. |
| Ownership.NothingLeaks | src/json-c/json_tokener.c:64-105 | For every text in any number of pieces, whatever the calls returned: after `json_tokener_free` counts are owners; live is exactly what is reached from the returned node, so nothing if no call succeeded; that node is counted once for each time it was returned, the others once; what is live still owns what it owned. |
| LinkHash.LookupEndsIff | src/json-c/linkhash.c:157-170 | A probe ends if and only if some slot is EMPTY or holds the key. |
| LinkHash.Table.LookupEntry | src/json-c/linkhash.c:157-170 | Lookup past tombstones finds the entry of the key, or tells that there is none. |
| LinkHash.Table.LookupValue | src/json-c/linkhash.c:173-178 | Lookup agrees with the ordered map. |
| LinkHash.Table.Insert | src/json-c/linkhash.c:123-154 | Insertion, with a resize when the load asks for it, appends the member. |
| LinkHash.Table.Resize | src/json-c/linkhash.c:90-108 | Resizing changes neither contents nor order and leaves no tombstone, for every new size; table and size agree afterwards if and only if the entries fit the new size. |
| LinkHash.Table.DeleteEntry | src/json-c/linkhash.c:181-207 | Deleting an entry takes exactly its member out; other slots report an error and stay. |
| LinkHash.Table.Unlink | src/json-c/linkhash.c:189-206 | The four cases of the list surgery give the list without the entry. |
| LinkHash.Table.Delete | src/json-c/linkhash.c:210-215 | Deleting by key agrees with the ordered map. |
| LinkHash.Table.Enumerate | src/json-c/linkhash.c:110-120 | Following the list from the head gives every member once, in order. |
| LinkHash.AppendedWf | src/json-c/linkhash.c:139-151 | Writing a free slot that is first on the probe path keeps list, contents and reachability. |
| LinkHash.RemovedWf | src/json-c/linkhash.c:189-206 | Freeing a slot keeps list, contents and reachability of all others. |
| LinkHash.FreeSlot | src/json-c/linkhash.c:128-137 | With fewer members than slots the insertion probe finds a slot. |
| LinkHash.CutIsWithout | src/json-c/linkhash.c:210-215 | With distinct keys, taking out one entry is removing its key. |
| ObjectStore.ObjectAdd | src/json-c/json_object.c:263-268 | Adding a key replaces its value and moves it to the end; no tombstone is left and keys stay distinct. |
| ObjectStore.NewObjectWith | src/json-c/json_object.c:241-268 | A run of additions on a new object ends with the map of them all, without tombstones and with an EMPTY slot. |
| ObjectStore.TombstoneRefilled | src/json-c/linkhash.c:133-141 | The slot freed for a key is the one its next insertion takes. |
| ObjectStore.CharHashIs | src/json-c/linkhash.c:41-49 | The hash value is the polynomial of the characters, each plus the prime, in powers of 129, modulo 2^32. |
| ObjectStore.CleanHasEmpty | src/json-c/linkhash.c:128-137 | Without tombstones an EMPTY slot is left. |
| ObjectStore.ChurnedObject | src/json-c/linkhash.c:157-207 | Under any hash, adding and deleting sixteen keys with different home slots leaves an empty object in which no lookup ends. |
| ObjectStore.LettersSpread | src/json-c/linkhash.c:41-49 | Under the library's hash of a string sixteen one-letter keys have different home slots. |
| ObjectStore.ChurnedLetters | src/json-c/linkhash.c:41-49 | So under that hash such an object exists. |
| ObjectStore.LookupPut | src/json-c/json_object.c:263-273 | Looking up after an addition gives the new value for its key and the old ones for the others. |
| ArrayList.ArrayList.Add | src/json-c/arraylist.c:83-87 | The element comes last, and nothing is freed. |
| ArrayList.ArrayList.Expand | src/json-c/arraylist.c:59-71 | Growth keeps the elements, for any index; there is room for the index afterwards if and only if it is below twice the size. |
| ArrayList.ArrayList.PutIdx | src/json-c/arraylist.c:73-81 | The place gets the element, what stood there is freed, and the gap up to it is NULL. |
| ArrayList.ArrayList.GetIdx | src/json-c/arraylist.c:52-57 | Elements are read back; beyond the end there is NULL. |
| Kmp.BuildTable | src/uthash/utstring.h:157-193 | The table is the strong failure function, built with at most three comparisons a character. |
| Kmp.BuildTableR | src/uthash/utstring.h:197-233 | The backward table is the strong failure function of the reversed needle, read backwards. |
| Kmp.MirrorIsTable | src/uthash/utstring.h:197-233 | A backward table is right if and only if its mirror image is a right forward table. |
| Kmp.SearchForward | src/uthash/utstring.h:237-266 | Searching finds the leftmost occurrence, or none if there is none, early exit included, in two comparisons a character. |
| Kmp.SearchBackward | src/uthash/utstring.h:270-300 | Searching backward finds the rightmost occurrence, or none if there is none. |
| Kmp.UtString.Find | src/uthash/utstring.h:304-346 | The leftmost occurrence at or after the start position, in at most 2 · (needle + searched part) comparisons of characters, building the table included. |
| Kmp.UtString.FindR | src/uthash/utstring.h:350-388 | The rightmost occurrence that ends at or before the start position, with the same bound on the part up to it. |
| Kmp.UnitFall | src/uthash/utstring.h:169-182 | Behind a fall of one position there is no further candidate, which is why building and searching together stay within two comparisons a character. |
| Kmp.NextCandidate | src/uthash/utstring.h:169-172 | A mismatch may skip to the strong failure entry: no useful border is missed. |
| Kmp.Shift | src/uthash/utstring.h:251-254 | A mismatch while searching skips no occurrence. |
| Kmp.UtString.Append | src/uthash/utstring.h:99-105 | Appending extends the body and keeps a terminator behind it, growing when needed. |
| ListSort.Sort | src/uthash/utlist.h:108-304 | In place and for all four shapes: the nodes of the list in sorted order, with every next, prev and end link right, and no other field written. |
| ListSort.MergePass | src/uthash/utlist.h:119-163 | One pass merges neighbouring runs and puts the links right; it counts at most one merge exactly when the list is then one run. |
| ListSort.MergeRuns | src/uthash/utlist.h:132-153 | The inner loop merges two runs of linked nodes. |
| ListSort.SplitRun | src/uthash/utlist.h:125-131 | The counting loop finds the end of the run, or of the list. |
| ListSort.SortIsStable | src/uthash/utlist.h:108-165 | The result has the same nodes in order, equal ones in their old order. |
| ListSort.OnlyStableSort | src/uthash/uthash.h:730-815 | A stable sort of distinct nodes is unique, so the four shapes give the same order. |
| ListSort.PassedRuns | src/uthash/utlist.h:119-163 | A pass turns arranged runs of length k into arranged runs of length 2k. |
| UtHash.Table.Add | src/uthash/uthash.h:182-203 | Adding appends the item and keeps every condition of HASH_FSCK; the buckets double if and only if the chain of the item gets too long and doubling is not switched off; keys stay distinct if and only if the key is new. |
| UtHash.Table.Find | src/uthash/uthash.h:103-114 | Find returns an item of the key if and only if one is present; with distinct keys it agrees with the ordered map. |
| UtHash.Table.Delete | src/uthash/uthash.h:224-257 | Deleting takes out exactly the item, keeps the order of the others and every condition of HASH_FSCK; with distinct keys it removes the key. |
| UtHash.Table.Sort | src/uthash/uthash.h:730-815 | Sorting arranges the application order and leaves all buckets and chains as they are; keys stay as distinct as they were. |
| UtHash.Table.Expand | src/uthash/uthash.h:677-723 | Doubling redistributes the items, sets the ideal length to the ceiling, counts the items beyond it, sets the multipliers that delay the next doubling, and gives up after two ineffective doublings. |
| UtHash.Redistribute | src/uthash/uthash.h:692-711 | The chains after the loops are the items pushed, in bucket order, onto empty buckets; counts, multipliers and the count of deep items agree. |
| UtHash.DoublingSplits | src/uthash/uthash.h:692-711 | An item of bucket b ends in bucket b or in bucket b + num_buckets, and in no other. |
| UtHash.OneBucket | src/uthash/uthash.h:207-210 | An item is in the bucket its hash value names, once, and in no other. |
| UtHash.SpreadKeeps | src/uthash/uthash.h:692-711 | Redistributing loses and duplicates nothing. |
| UtHash.CountsAgree | src/uthash/uthash.h:287-337 | Bucket counts add up to the number of items and to the length of the application order. |
| UtHash.Unchain | src/uthash/uthash.h:636-645 | Unlinking from a chain leaves the chain without the item, with its count. |
| UtHash.Unlist | src/uthash/uthash.h:236-251 | Unlinking from the application order leaves the list without the item, head and tail included. |
| Words.AndMask | src/uthash/uthash.h:207-210 | Masking with a power of two less one is the remainder. |
| Words.CeilShiftIsCeiling | src/uthash/uthash.h:660-690 | Shift and mask give the ceiling of the quotient. |
| Words.DoubledPlace | src/uthash/uthash.h:697 | One more bit of the hash value decides between the old place and its image. |
| NumToA.Dtoa | src/embeddedgmetric/modp_numtoa.c:57-143 | For values up to 2147483647: the text is read back as the reference rounding of the value, within half a unit of the last place, if and only if the value is no tie above an all-nines fraction; it has exactly as many digits behind the point as asked for (0 below 0, 9 above 9, one more at such a tie) and no point when that is 0. Larger values get the text of `sprintf`. |
| NumToA.CorrectlyRoundedIff | src/embeddedgmetric/modp_numtoa.c:82-98 | The number written is within half a unit of the last place if and only if the value is no tie above an all-nines fraction. |
| NumToA.RoundIsUnits | src/embeddedgmetric/modp_numtoa.c:82-121 | But for those ties the code, with its carry, gives the nearest whole number of units of the last place, an ordinary tie going up from an odd number or an all-zero fraction. |
| NumToA.TieText | src/embeddedgmetric/modp_numtoa.c:94-98 | Such a tie is written with one digit too many. |
| NumToA.TieExample | src/embeddedgmetric/modp_numtoa.c:94-98 | Such a tie: 0.95 with one digit, written 0.10. |
| NumToA.TextDenotes | src/embeddedgmetric/modp_numtoa.c:111-142 | The text read back is the sum of its parts. |
| NumToA.TextLength | src/embeddedgmetric/modp_numtoa.c:57-143 | At most 12 + prec characters, one more for a tie above an all-nines fraction. |
| NumToA.RoundValue | src/embeddedgmetric/modp_numtoa.c:75-121 | The branches compute sign, whole part and fraction of the specification. |
| NumToA.Itoa10 | src/embeddedgmetric/modp_numtoa.c:32-45 | The text printf would give, if and only if the value can be negated; the least value is written with mirrored digits. |
| NumToA.Uitoa10 | src/embeddedgmetric/modp_numtoa.c:47-55 | The same for unsigned values. |
| NumToA.WriteDigits | src/embeddedgmetric/modp_numtoa.c:39 | The digit loop, with the truncating division of C, writes its characters backwards. |
| NumToA.StrReverse | src/embeddedgmetric/modp_numtoa.c:25-30 | The stretch is reversed in place, the rest is untouched. |
| PacketQueue.FirstInFirstOut | src/queue.c:30-54 | Over every interleaving without overrun the packets popped are a prefix of the packets stored, and the rest are exactly the occupied slots. |
| PacketQueue.StoreKeepsInv | src/queue.c:30-41 | Every statement of a store keeps the invariant unless it overruns. |
| PacketQueue.PopKeepsInv | src/queue.c:43-54 | Every statement of a pop keeps the invariant. |
| PacketQueue.OverrunIff | src/queue.c:37 | A store overruns if and only if the ring is full. |
| PacketQueue.EmptyAnswer | src/queue.c:44 | A pop answers NULL exactly when no stored packet is waiting. |
| PacketQueue.OverrunLosesPacket | src/queue.c:30-41 | At an overrun one packet more is out than there are slots, and the slot of the oldest holds the newest. |
| PacketQueue.LostForGood | src/queue.c:30-54 | Over every interleaving, overruns included: packets stored are packets popped, plus packets in slots, plus one for each overrun. |
| PacketQueue.VictimNeverPopped | src/queue.c:30-54 | In every continuation after an overrun one certain packet is never popped: the oldest, or the new one if the oldest was just read. |
| PacketQueue.OverrunHappens | src/queue.c:30-41 | A run with an overrun. |
| PacketQueue.PacketRing.Store | src/queue.c:30-41 | The effect of the four statements on the ring. |
| PacketQueue.PacketRing.PopFirst | src/queue.c:43-54 | The oldest waiting packet, or NULL when nothing waits. |
| Metrics.EachValueOnce | src/statsd.c:591-621 | Over every interleaving, from any start that keeps the invariant, each timer value is in exactly one flushed batch or pending; batches are sorted and not empty; counts equal lengths whenever the lock is free. |
| Metrics.AddedAsSent | src/statsd.c:591-621 | Over every run, for old and new timers alike, the values added are the values the updates sent, but for one on its way. |
| Metrics.EveryValueKept | src/statsd.c:591-621 | So each value loaded or sent is in one batch of its key, pending, or on its way. |
| Metrics.NeverStuck | src/statsd.c:591-621 | While a thread is at work one of the two can go on; with the lock free each can. |
| Metrics.LoadedInv | src/statsd.c:115-119 | Timers with counts that are array lengths are such a start. |
| Metrics.StepKeepsInv | src/statsd.c:1203-1249 | Every statement of either thread keeps the invariant. |
| Metrics.PrintedCount | src/statsd.c:1252-1263 | The count printed for a batch is the number of values that came in since, less one that an update has stored but not yet counted. |
| Metrics.PrintedZero | src/statsd.c:1252-1263 | A flush without updates prints zero for a batch of one value. |
| Counters.Reconciled | src/statsd.c:488-527 | Over every interleaving, from any start that keeps the invariant, what was added is what was reported, plus what is pending, plus exactly what landed between a report and its reset. |
| Counters.AddedAsAsked | src/statsd.c:488-527 | Over every run, for old and new counters alike, what was added is the sum of what the updates mean (the value, or the value divided by the sample rate), but for one on its way. |
| Counters.EveryUpdateCounts | src/statsd.c:488-527 | So what was loaded or asked for is reported, pending, late or on its way. |
| Counters.NeverStuck | src/statsd.c:488-527 | While a thread is at work one of the two can go on; with the lock free each can. |
| Counters.LoadedInv | src/statsd.c:115-119 | Any counters are such a start. |
| Counters.StepKeepsInv | src/statsd.c:1165-1193 | Every statement of either thread keeps the ledger balanced. |
| Counters.ResetLoses | src/statsd.c:1187-1190 | A reset loses what the value grew by since the report; nothing is lost if and only if it did not change. |
| Counters.LostUpdate | src/statsd.c:1187-1190 | A run in which an update is lost. |
| Counters.OnlyStoresAreLate | src/statsd.c:491-509 | Only a store to the key between its report and its reset makes anything late. |
| Serialize.SaveRestoreIff | src/serialize.c:23-195 | Restoring the saved file gives back the state if and only if it is restorable. |
| Serialize.SplitJoinIff | src/serialize.c:62-69 | Cutting at the first dot undoes joining if and only if the group has no dot. |
| Serialize.SplitNameIs | src/serialize.c:62-69 | A name without a dot has no group; otherwise the parts are what is around the first dot. |
| Serialize.NumberOrText | src/json-c/json_object.c:334-387 | A number is the same whether it is stored as a number or as its text. |
| Serialize.SavedShallow | src/serialize.c:132-189 | A saved tree is never too high to be read. |
| Serialize.ImageRestorable | src/serialize.c:52-129 | What is restored could be saved and restored again without loss. |
| Serialize.RestoredStart | src/serialize.c:83-99 | The restored timers are a state in which the threads may start. |
| Serialize.MetricStore.SaveTo | src/serialize.c:132-195 | The loops over the four tables write the text of the saved tree. |
| Serialize.MetricStore.LoadFrom | src/serialize.c:52-129 | The loops over the entries append the restored tables. |

## Left out

- Dtoa: what `sprintf("%e")` writes is a parameter.
- Itoa10: negating the least value is undefined in C; the model lets it wrap around.
- Metrics.EachValueOnce: the default build, in which every update takes the lock; races on the shape of the tables during unlocked lookups are one atomic step.
- Sort: comparisons are of items that do not change while sorting; the doubling run length does not overflow.
- Ownership.NothingLeaks: calls after one that stopped before the end of its text; nodes are numbers that are never reused, and what a node holds is not compared with the parsed value.
- Find: `utstring_find` from a start position before the beginning of the string.
- FindR: `utstring_findR` from a start position at or past the end, from which it reads behind the string.
- Resize: fewer than three slots, which no table of the library has.
- json trees are values in the parser and printer, so shared nodes and the cached text of a node are not modelled there; the print buffer of the tokener is its contents.
- The statistics counters of linkhash and the name of a table.
- Number lexemes that are no numbers, such as `1-2`, and the limits of `sscanf`; a text nested deeper than 31 is covered for printed texts only.
- The 100-byte name buffers, the short key buffer and the file operations around saving and restoring.
- Allocation failure, hash function internals, the Bloom filter and HASH_SELECT.
- Percentile and mean in the flush loop, gauges and stats in the concurrent model: one locked assignment each.
- PutIdx: an index of twice the size or more, for which `Expand` makes no room, so that the C code writes behind the array.
- Sockets, threads and signals, packet parsing, the management interface, the XDR client.
