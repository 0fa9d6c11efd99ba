# Five C programs, modelled and proved

This project models the cores of five small C programs: a reference-counted sorted list with live
iterators, an allocator that keeps its entry headers inside its arena, a hand-written lexer for
C-like text, a bank server with one process per client over a shared account table, and an
inverted index that puts lexer, hash map and sorted list together. `dafny verify dfyconfig.toml`
checks everything.

Code that changes things in place is modelled by classes whose methods follow it statement by
statement and are proved against specification functions; what the programs promise is then proved
about those functions, over all inputs, all runs or all reachable states.

## How it is laid out

**Sorted list** (`Order`, `ListShape`, `ListSpec`, `ListCounts`, `ListStore`, `ListRuns`). The
specification reclaims memory by tracing: a node is kept exactly while the list or an iterator can
reach it. The program reclaims by counting. `ListStore.SortedList` keeps `struct Node` as one map
per field, and each of its methods is proved to turn the pointer graph into the traced one while
every count stays equal to the number of pointers to its node. `ListRuns` then follows one iterator
through arbitrary interference.

**Allocator** (`HeapLayout`, `HeapSpec`, `HeapMemory`, `HeapArena`, `HeapRuns`). `HeapArena.Arena`
rewrites the header fields, kept by offset; its invariant is that they are the doubly linked image
of a list of entries that tile the arena, with no two free neighbours and a free last entry. Such a
list is determined by its live blocks, and the statements about whole runs follow from that.

**Lexer** (`LexSpec`, `LexScanner`, `LexLanguage`, `LexAccepts`, `LexPartition`, `LexRoundTrip`).
`LexScanner.Tokenizer` is the cursor machine; `LexSpec` says what it computes as functions of a text
and a position; `LexLanguage` writes the forms of tokens and the character classes out. Proved are
the round trip, the partition of the text, that tokens have the form of their kind and are maximal
in it, and which texts exactly are tokens.

**Bank** (`Bank`, `BankSafety`, `BankRequests`, `BankSessions`). A step relation over any number of
clients. A step reads or writes one shared field, or takes or gives back one mutex: reading and
writing a balance are separate steps, so are reading and writing the number of accounts, the four
fields of a new account, and the snapshot, the search, the lock attempt and the flag of a session's
start. Taking a mutex is one step because it is atomic. `BankRequests` has the table procedures in
the program's own form, and shows that the steps of open and the rest amount to them when nobody
interferes. `BankSessions` tells what each request comes to, in names, balances, owners and flags,
and that debit and credit are exact in every run.

**Index** (`HashMap`, `WordCounts`, `Index`, `IndexMeaning`, `IndexLists`, `Indexer`).
`Indexer.IndexFile` runs the lexer over a file, counts its words in the chained hash map, walks the
map with its iterator and enters the records into a sorted list of tokens, each with a sorted list
of records. These are the reference-counted lists of `ListStore`; `Index` is about the value they
stand for. What is counted
(`WordCounts`) and how an index is ordered (`IndexMeaning`) is told there without the program's own
functions.

## Where code and description differ

The model follows the code.

- A comment is opened by any of `- + & | ^ % ! /` before `/` or `*`, because the cases of the
  switch fall through (`Indexer/src/tokenizer.c:250-303`).
- `08` is lexed as `0` and `8`, while `018` is one decimal number; and a float that starts with
  zeros is cut up when the letter e follows them directly or an 8 or 9 follows the first zero:
  `0e5`, `012e5`, `09.5`. `LexAccepts.TokensExactly` gives the exact condition.
- `Indexer/src/sorted-list.h:120` describes the current item as the one most recently returned by
  SLNextItem. A new iterator already stands on the first item, which SLGetItem returns; the first
  SLNextItem returns the second one. The items of a walk are counted that way in
  `ListRuns.Yields`.
- A debit that would overdraw is answered with "Balance reached 0" and changes nothing
  (`MultithreadedBanking/src/server-client.c:90-93`).

## Model

| member | source | states |
|---|---|---|
| `ListStore.SortedList.constructor` | Indexer/src/sorted-list.c:80-95 | a new list is empty, has no iterators, owes nothing to the destruct function, and its counts are exact |
| `ListStore.SortedList.NodeDestroy` | Indexer/src/sorted-list.c:26-40 | called while one count is one too high, the cascade ends with exact counts and frees exactly the nodes that neither the list nor an iterator can reach; it returns the first node of the chain that survives |
| `ListStore.SortedList.NodeCreate` | Indexer/src/sorted-list.c:50-66 | a node at an unused address with count 1; the item counts as taken over |
| `ListStore.SortedList.Insert` | Indexer/src/sorted-list.c:107-141 | the graph becomes that of an insertion, counts stay exact, and the result is 1 if and only if no equal item was in the list |
| `ListStore.SortedList.WalkPast` | Indexer/src/sorted-list.c:112-124 | the walk ends with 0 if and only if an equal item is present, and otherwise at the two nodes between which the item belongs |
| `ListStore.SortedList.Remove` | Indexer/src/sorted-list.c:143-186 | the graph becomes that of unlinking the equal item and freeing what nobody can reach any more; the result is 1 if and only if there was such an item; the destruct log only grows |
| `ListStore.SortedList.Search` | Indexer/src/sorted-list.c:149-155 | finds the equal item with its predecessor, or NULL if and only if there is none |
| `ListStore.SortedList.RemoveHead` | Indexer/src/sorted-list.c:160-174 | removing the first node without a cascade is enough: it frees exactly what has become unreachable and leaves exact counts |
| `ListStore.SortedList.RemoveInner` | Indexer/src/sorted-list.c:176-182 | the same for a later node, by the cascade |
| `ListStore.SortedList.Destroy` | Indexer/src/sorted-list.c:97-105 | whatever iterators are about, the list ends up empty and exactly the nodes no iterator can reach are freed |
| `ListStore.SortedList.CreateIterator` | Indexer/src/sorted-list.c:195-212 | a new iterator stands on the first node and is counted |
| `ListStore.SortedList.NextItem` | Indexer/src/sorted-list.c:214-235 | the iterator lets go of its node, frees exactly what becomes unreachable by that, stands on the first survivor behind it, and returns its item |
| `ListStore.SortedList.GetItem` | Indexer/src/sorted-list.c:237-241 | the item under the iterator, None at the end |
| `ListStore.SortedList.DestroyIterator` | Indexer/src/sorted-list.c:243-246 | frees exactly what only this iterator could reach; counts stay exact |
| `ListStore.SortedList.AllDestructedOnce` | Indexer/src/sorted-list.c:97-105 | with the list empty and all iterators destroyed or at their end, no node is allocated and every item taken over has been destructed exactly once |
| `ListCounts.NoLeak` | Indexer/src/sorted-list.c:26-40 | exact reference counts imply that every allocated node is reachable from the list or an iterator |
| `ListCounts.ExactDetermined` | Indexer/src/sorted-list.c:10-21 | the counts are a function of the pointer graph |
| `ListCounts.NothingLeft` | Indexer/src/sorted-list.c:97-105 | an empty list with no iterator on a node has no node allocated |
| `ListCounts.FreeNode` | Indexer/src/sorted-list.c:29-35 | a node held only by the pointer being dropped can go; the debt passes to its successor and the nodes to be freed stay the same |
| `ListCounts.FreeFirst` | Indexer/src/sorted-list.c:160-174 | after the list has moved off its first node, freeing that node (count 0) and lowering its successor's count is the whole cleanup; with another count nothing is to be freed |
| `ListCounts.LetGo` | Indexer/src/sorted-list.c:214-233 | when an iterator lets go, the node it goes on to is the first survivor behind, both when its node is freed and when not |
| `ListSpec.SweepKeeps` | Indexer/src/sorted-list.c:26-40 | freeing unreachable nodes leaves the list, its items and every iterator's chain as they were, and leaves nothing unreachable |
| `ListSpec.SweepUnique` | Indexer/src/sorted-list.c:26-40 | any way of freeing nodes that keeps the pointers and leaves no unreachable node frees the same nodes |
| `ListSpec.InsertItems` | Indexer/src/sorted-list.c:107-141 | the items become those of an ordered set with the new item inserted |
| `ListSpec.UnlinkItems` | Indexer/src/sorted-list.c:143-186 | the items become those of an ordered set without the equal item |
| `ListSpec.InsertKeepsChains` | Indexer/src/sorted-list.c:128-138 | no iterator loses a node in front of it by an insertion |
| `ListSpec.UnlinkKeepsChains` | Indexer/src/sorted-list.c:176-182 | no iterator loses any node in front of it by a removal but the removed one |
| `ListShape.ChainDescends` | Indexer/src/sorted-list.c:107-141 | along every chain, of live or of removed nodes, items strictly descend |
| `Order.InsertedIsSetInsertion` | Indexer/src/sorted-list.h:50-61 | insertion keeps the order, adds exactly the item, and does nothing exactly when an equal one is present |
| `Order.RemovedIsSetRemoval` | Indexer/src/sorted-list.h:63-70 | removal keeps the order and takes out exactly the equal item |
| `Order.DescendingUnique` | Indexer/src/sorted-list.h:50-61 | a sorted list is determined by its set of items |
| `ListRuns.StepSound` | Indexer/src/sorted-list.c:97-246 | after every operation, of any interleaving, a node is allocated if and only if the list or an iterator can reach it |
| `ListRuns.ItemsAfter` | Indexer/src/sorted-list.c:97-246 | insertion, removal and destruction act on the items as on an ordered set; iterator operations leave them alone |
| `ListRuns.OthersKeepAhead` | Indexer/src/sorted-list.c:97-246 | an operation that does not step iterator i leaves it on its node with every item that stays in the list still ahead |
| `ListRuns.NextSkipsNothing` | Indexer/src/sorted-list.c:214-235 | stepping leads to a strictly smaller item and skips no item that is in the list |
| `ListRuns.IteratorComplete` | Indexer/src/sorted-list.c:107-246 | over any run that interleaves insertions, removals, destruction of the list and other iterators, what the iterator gives strictly descends, and once it is at its end every node that was in the list throughout has been given exactly once |
| `ListRuns.QuietWalk` | Indexer/src/index.c:106-119 | a walk nobody interferes with gives item after item in list order, and once its iterator is destroyed the graph, and so every count, is what it was |
| `HeapArena.Arena.Initialize` | EnhancedMalloc/src/heap.c:66-77 | the arena becomes one free entry of HEAP_SIZE - ENTRY_SIZE bytes |
| `HeapArena.Arena.CustomMalloc` | EnhancedMalloc/src/heap.c:66-107 | keeps the headers a doubly linked image of a canonical layout, and does and returns what the first fit on that layout does |
| `HeapArena.Arena.FindFit` | EnhancedMalloc/src/heap.c:78-104 | ends at the first free entry with room for the request and a header, or at NULL when there is none |
| `HeapArena.Arena.SplitAt` | EnhancedMalloc/src/heap.c:85-98 | the header writes turn the entry into a live one of the requested size and a free rest, linked both ways |
| `HeapArena.Arena.CustomFree` | EnhancedMalloc/src/heap.c:108-161 | keeps the same invariant; verdict and new layout are those of the specification, and error cases change nothing |
| `HeapArena.Arena.FindClaimant` | EnhancedMalloc/src/heap.c:113-155 | ends at the one entry whose payload starts at or holds the address, or at NULL |
| `HeapArena.Arena.ReleaseEntry` | EnhancedMalloc/src/heap.c:127-149 | marks the entry free and coalesces it with a free predecessor and a free successor |
| `HeapArena.Arena.AbsorbNext` | EnhancedMalloc/src/heap.c:134-147 | a free entry takes over its free successor, with both links repaired |
| `HeapMemory.SplitRepresents` | EnhancedMalloc/src/heap.c:85-98 | after the split prev and next are again inverse to each other and every field agrees with the layout |
| `HeapMemory.MergeRepresents` | EnhancedMalloc/src/heap.c:132-148 | the same after a merge |
| `HeapLayout.LayoutUnique` | EnhancedMalloc/src/heap.c:66-161 | two canonical layouts of the same extent with the same live blocks are equal entry by entry |
| `HeapLayout.LiveIsEntry` | EnhancedMalloc/src/heap.c:66-107 | the live blocks are exactly the payloads of the entries that are not free |
| `HeapSpec.ReleaseEffect` | EnhancedMalloc/src/heap.c:127-149 | coalescing on both sides keeps the entries tiling the arena, no two neighbours free, the last entry free, and takes away exactly the freed block |
| `HeapRuns.LiveApart` | EnhancedMalloc/src/heap.c:83-99 | two live payloads, with the headers in front of them, do not overlap; each lies inside the arena |
| `HeapRuns.ClearOfHeaders` | EnhancedMalloc/src/heap.c:83-99 | a live payload lies clear of every header in the arena, those of free entries too |
| `HeapRuns.MallocEffect` | EnhancedMalloc/src/heap.c:66-107 | fails if and only if no free entry has room, and then changes no entry; otherwise adds one live block apart from all others and moves none |
| `HeapRuns.FreeReports` | EnhancedMalloc/src/heap.c:108-159 | what free reports: inside a payload, start of a free payload, or start of a live payload, each if and only if the address is that, and not allocated if and only if it is none of these or nothing has been allocated yet |
| `HeapRuns.MallocTakesFirst` | EnhancedMalloc/src/heap.c:78-105 | the result is the payload of the first free entry with room for the request and a header, NULL if and only if there is none |
| `HeapRuns.FreeEffect` | EnhancedMalloc/src/heap.c:108-161 | frees exactly the live block that starts at the address; any other address changes nothing |
| `HeapRuns.RunSound` | EnhancedMalloc/src/heap.c:66-161 | every run of calls, valid or not, keeps the layout canonical |
| `HeapRuns.HistoryForgotten` | EnhancedMalloc/src/heap.c:66-161 | two runs that end with the same live blocks end with the same entries |
| `HeapRuns.FreeUndoesMalloc` | EnhancedMalloc/src/heap.c:66-161 | freeing what malloc has just returned restores the layout exactly |
| `HeapRuns.FreeOrderIrrelevant` | EnhancedMalloc/src/heap.c:128-148 | freeing a set of addresses gives the same heap in any order, with repetitions and wrong addresses among them |
| `HeapRuns.AllFreed` | EnhancedMalloc/src/heap.c:128-148 | freeing every live block leaves the single entry the arena began with |
| `HeapRuns.GuaranteedAllocation` | EnhancedMalloc/src/heap.c:80-105 | with k live blocks of B bytes, a request n with (k+1)(n+E) <= HEAP_SIZE - B - (2k+1)E succeeds |
| `LexScanner.Tokenizer.constructor` | Indexer/src/tokenizer.c:40-59 | the copied text, NUL behind it, and the cursor at its start |
| `LexScanner.Tokenizer.FormFloatWithExpToken` | Indexer/src/tokenizer.c:90-113 | moves the cursor and the length to the end of the exponent, digits or not |
| `LexScanner.Tokenizer.FormFloatToken` | Indexer/src/tokenizer.c:121-131 | moves to the end of the fraction and the exponent, if any |
| `LexScanner.Tokenizer.FormDecimalToken` | Indexer/src/tokenizer.c:139-150 | moves to the end of the number that starts with these digits |
| `LexScanner.Tokenizer.FormWordToken` | Indexer/src/tokenizer.c:157-165 | moves to the end of the run of letters and digits |
| `LexScanner.Tokenizer.FormHexToken` | Indexer/src/tokenizer.c:172-186 | moves to the end of the hexadecimal digits, MAL when there are none |
| `LexScanner.Tokenizer.FormOctalToken` | Indexer/src/tokenizer.c:201-234 | moves to the end of what a leading zero opens, in each of its branches |
| `LexScanner.Tokenizer.SkipLineComment` | Indexer/src/tokenizer.c:273-282 | the loop stops behind the first newline, or at the NUL |
| `LexScanner.Tokenizer.SkipBlockComment` | Indexer/src/tokenizer.c:287-301 | the loop stops behind the first close, or at the NUL, without reading past it |
| `LexScanner.Tokenizer.SkipComment` | Indexer/src/tokenizer.c:270-303 | ends behind the comment, or at the end of the text when it is not closed |
| `LexScanner.Tokenizer.FormShiftToken` | Indexer/src/tokenizer.c:312-325 | up to three characters, as the operators with < and > go |
| `LexScanner.Tokenizer.FormPuncToken` | Indexer/src/tokenizer.c:241-331 | the switch with its fall-throughs: an operator is formed, or a comment skipped and the next token found behind it, in mutual recursion that ends because the rest of the text gets shorter |
| `LexScanner.Tokenizer.FormNextToken` | Indexer/src/tokenizer.c:332-361 | begin, cursor, length and kind are those of the next token |
| `LexScanner.Tokenizer.GetNextToken` | Indexer/src/tokenizer.c:373-401 | returns a copy of the text between begin and cursor, NULL if that is empty; no read passes the NUL |
| `LexSpec.RunIsMaximal` | Indexer/src/tokenizer.c:98-100 | a run ends at the first character not of its class |
| `LexPartition.NextSkips` | Indexer/src/tokenizer.c:332-361 | what is passed over before a token is white space and comments only, nothing more could be skipped there, and NULL is returned only at the end of the text |
| `LexPartition.CommentStarts` | Indexer/src/tokenizer.c:249-303 | a comment starts at any of - + & | ^ % ! / before a slash or an asterisk, and nowhere else |
| `LexPartition.CommentSkipped` | Indexer/src/tokenizer.c:269-303 | a comment is passed over, to just behind its first newline or its first close, or to the end of the text |
| `LexPartition.OthersAreTokens` | Indexer/src/tokenizer.c:332-361 | a token starts wherever there is neither white space nor a comment |
| `LexPartition.Partition` | Indexer/src/tokenizer.c:332-401 | the whole text is tokens in order and without overlap, with only skippable gaps between, before and behind |
| `LexPartition.TokensAreFounds` | Indexer/src/tokenizer.c:373-401 | the texts returned are the substrings of that partition |
| `LexLanguage.DigitsAre` | Indexer/src/tokenizer.c:192-194 | the digits, the octal digits and the exponent letters, written out |
| `LexLanguage.LettersAre` | Indexer/src/tokenizer.c:348-350 | the letters, written out, and letters with digits |
| `LexLanguage.MarksAre` | Indexer/src/tokenizer.c:352-354 | the punctuation characters of ASCII, written out |
| `LexLanguage.SpacesAre` | Indexer/src/tokenizer.c:333-336 | the white space characters, written out |
| `LexLanguage.OctalFits` | Indexer/src/tokenizer.c:201-234 | what a leading zero leads to has the form of its kind, and the character behind it would not extend it within that kind |
| `LexLanguage.DecimalFits` | Indexer/src/tokenizer.c:139-150 | the same for digits |
| `LexLanguage.ExponentFits` | Indexer/src/tokenizer.c:90-113 | the same for a mantissa with an exponent, complete or broken off |
| `LexLanguage.OperatorFits` | Indexer/src/tokenizer.c:241-331 | the same for operators |
| `LexLanguage.TokenFits` | Indexer/src/tokenizer.c:90-361 | every token of every text has the form of its kind (octal 0[0-7]+, and so on for all eight kinds) and is maximal in it |
| `LexAccepts.TokensExactly` | Indexer/src/tokenizer.c:90-361 | a text is lexed as one token of a kind if and only if it has the form of that kind and, for floats and broken-off floats, is not a number that the lexer gives up behind its leading zero |
| `LexAccepts.FloatAccepted` | Indexer/src/tokenizer.c:121-234 | every float that is not abandoned is one FLOAT token |
| `LexAccepts.FloatCutUp` | Indexer/src/tokenizer.c:201-234 | 0e5 has the form of a float and is lexed as 0 and e5 |
| `LexAccepts.KindUnique` | Indexer/src/tokenizer.c:332-361 | no text is accepted as two kinds |
| `LexAccepts.AcceptedLexes` | Indexer/src/tokenizer.c:373-401 | any sequence of accepted texts, separated by single spaces, is lexed as written |
| `LexRoundTrip.TokenMoves` | Indexer/src/tokenizer.c:90-361 | the characters of a token, put anywhere and followed by white space or NUL, are lexed as that token again |
| `LexRoundTrip.PrintLexes` | Indexer/src/tokenizer.c:373-401 | printed tokens lex to themselves |
| `LexRoundTrip.RoundTrip` | Indexer/src/tokenizer.c:373-401 | for every ASCII text, joining its tokens with single spaces and lexing again gives the same kinds and texts |
| `BankSafety.InitialInv` | MultithreadedBanking/src/server-client.c:105-116 | an empty bank satisfies the invariant |
| `BankSafety.StepKeeps` | MultithreadedBanking/src/server-client.c:28-203 | what a step of one client may do to the shared memory: locks are taken and given back by their holder only, names in use stay, an account changes only in the hands of its holder; and the client itself stays in order |
| `BankSafety.OthersKeep` | MultithreadedBanking/src/server-client.c:28-203 | steps of that kind do not disturb what any other client relies on |
| `BankSafety.StepAccounts` | MultithreadedBanking/src/server-client.c:87-104 | after a step every balance is again the acknowledged updates and the one in flight, and not negative |
| `BankSafety.StepInv` | MultithreadedBanking/src/server-client.c:28-203 | every event keeps the invariant |
| `BankSafety.RunInv` | MultithreadedBanking/src/server-client.c:28-203 | the invariant holds at every state of every interleaving of any number of clients |
| `BankSafety.SessionExclusive` | MultithreadedBanking/src/server-client.c:69-86 | no two clients have the same account; whoever has one holds its mutex, and at the head of the request loop the account is marked in session |
| `BankSafety.NoLostUpdate` | MultithreadedBanking/src/server-client.c:87-104 | a balance is never negative, and equals acknowledged credits less acknowledged debits whenever no acknowledgement is outstanding |
| `BankSafety.BalanceReportIsExact` | MultithreadedBanking/src/server-client.c:166-170 | the balance a client is told is the sum of the acknowledged updates of the account |
| `BankSafety.NoHoldAndWait` | MultithreadedBanking/src/server-client.c:28-86 | a waiting client holds no mutex, and the client it waits for is not waiting |
| `BankSafety.Progress` | MultithreadedBanking/src/server-client.c:28-203 | a client inside a request that waits for nobody changes the state by its next step |
| `BankSafety.TableGrows` | MultithreadedBanking/src/server-client.c:28-52 | the number of accounts never falls and never passes 20; names in use never change |
| `BankSafety.NamesArePermanent` | MultithreadedBanking/src/server-client.c:28-52 | over any stretch of any run, names in use stay where they are |
| `BankSafety.SearchOutsideLock` | MultithreadedBanking/src/server-client.c:60-69 | the search outside the registry mutex on an outdated count is right: it finds the only account of the name, or the name was not among the accounts counted |
| `BankRequests.Table.SearchAccount` | MultithreadedBanking/src/server-client.c:11-23 | -1 on an empty table, otherwise the first index with the name, or the count |
| `BankRequests.Table.ClientOpen` | MultithreadedBanking/src/server-client.c:28-52 | adds a fresh account at the end unless the table is full or the name taken; success is told exactly then |
| `BankRequests.Table.AccountDebit` | MultithreadedBanking/src/account.c:11-18 | lowers the balance of that account and returns 1 if the amount is there; otherwise returns 0 and changes nothing |
| `BankRequests.PaidBack` | MultithreadedBanking/src/account.c:11-21 | what has been credited can be debited again, and that undoes it |
| `BankRequests.OpenAlone` | MultithreadedBanking/src/server-client.c:28-52 | the steps of open, run without interruption, have the effect of the procedure and give the mutex back |
| `BankRequests.StartAlone` | MultithreadedBanking/src/server-client.c:54-81 | the steps of start, run without interruption, lead to a session with mutex and flag set, to the report that there is no such account, or to the wait for whoever is in session |
| `BankRequests.FinishAlone` | MultithreadedBanking/src/server-client.c:83-86 | finishing a session undoes what starting it did to the account |
| `BankSessions.DebitServed` | MultithreadedBanking/src/server-client.c:120-165 | a client in session that asks for a debit comes back to its loop with that much taken from the balance, and acknowledged, if it was there, and with nothing changed otherwise |
| `BankSessions.CreditServed` | MultithreadedBanking/src/server-client.c:120-165 | a credit request comes to that much more on the account, acknowledged, and nothing else |
| `BankSessions.FinishServed` | MultithreadedBanking/src/server-client.c:120-181 | finish, exit and the end of the connection leave the account with its balance, without owner and flag; only after finish is the client still there |
| `BankSessions.OthersRefused` | MultithreadedBanking/src/server-client.c:150-170 | in session, open and start are refused and asking for the balance changes nothing |
| `BankSessions.OpenServed` | MultithreadedBanking/src/server-client.c:28-52 | out of session, an open request comes to one more account with that name and balance 0, or to no change if there are 20 accounts or one has the name |
| `BankSessions.StartServed` | MultithreadedBanking/src/server-client.c:54-81 | a start request comes to a session with the account of that name, mutex and flag set, or to no change if there is none |
| `BankSessions.StartWaits` | MultithreadedBanking/src/server-client.c:70-74 | if another client is in session with the account, the client waits for that one and has changed nothing |
| `BankSessions.WaitEnds` | MultithreadedBanking/src/server-client.c:70-78 | and once the account is free it gets its session |
| `BankSessions.NothingToServe` | MultithreadedBanking/src/server-client.c:132-149 | out of session, debit, credit, balance and finish change nothing |
| `BankSessions.OneOutcome` | MultithreadedBanking/src/server-client.c:120-195 | a request served without interference has one outcome, so that the outcomes above are the only ones |
| `BankSessions.UpdateExact` | MultithreadedBanking/src/server-client.c:87-104 | in every run, with any number of other clients at work in between: from a debit or credit request to the next head of the loop, the balance of the account changes by just what was asked for, a debit that is not covered changes nothing, and just that change is acknowledged |
| `HashMap.HashMap.constructor` | Indexer/src/hashmap.c:48-66 | an empty map, every chain empty |
| `HashMap.HashMap.Store` | Indexer/src/hashmap.c:67-88 | adds the pair and returns 1 if and only if the key was absent; a present key keeps its value; other keys are not touched |
| `HashMap.HashMap.Find` | Indexer/src/hashmap.c:90-101 | finds the pair of the key, or NULL if and only if the map does not hold it |
| `HashMap.HashMap.Overwrite` | Indexer/src/index.c:197-201 | writing through the pair hm_get returned changes the value of that key only |
| `HashMap.Iterator.constructor` | Indexer/src/hashmap.c:146-157 | no pair has been given yet |
| `HashMap.Iterator.Get` | Indexer/src/hashmap.c:169-179 | the current pair, or the first of the next chain that is not empty; the recursion ends with the last bucket |
| `HashMap.Iterator.GetNext` | Indexer/src/hashmap.c:158-167 | gives pair after pair in bucket order, each once, and then NULL for ever |
| `HashMap.FlattenAt` | Indexer/src/hashmap.c:146-179 | the place of a pair of a bucket in the order of the iterator |
| `HashMap.PairsAreContents` | Indexer/src/hashmap.c:67-101 | the pairs the iterator gives are exactly what the map holds, every key once |
| `Index.StrCmpLaws` | Indexer/src/index.c:141-145 | string comparison is antisymmetric, and 0 exactly for equal strings |
| `Index.RecordsOrdered` | Indexer/src/index.c:40-55 | compare_record is a total preorder, as the sorted list demands; which one, the next row says |
| `IndexMeaning.RecordOrderMeans` | Indexer/src/index.c:40-55 | compare_record puts the larger count first and, among equal counts, the file name that comes first in the alphabet |
| `Index.EntriesOrdered` | Indexer/src/index.c:84-94 | compare_index is a total preorder |
| `IndexMeaning.EntryOrderMeans` | Indexer/src/index.c:84-94 | compare_index puts the token first that comes first in the alphabet |
| `IndexMeaning.StrCmpBefore` | Indexer/src/index.c:141-145 | the sign of a string comparison is the alphabet: a proper beginning, or the smaller character at the first difference |
| `IndexMeaning.OrderMeans` | Indexer/src/index.c:40-94 | an index is sorted by the two comparators if and only if its tokens ascend and the records of each go by descending count and then ascending file name |
| `Index.IndexUnique` | Indexer/src/index.c:40-94 | an index in order is determined by the facts it states |
| `Index.AddToEntry` | Indexer/src/index.c:245-246 | a record for a known token adds that fact only and keeps the order |
| `Index.AddEntry` | Indexer/src/index.c:236-240 | a new token with its first record adds that fact only and keeps the order |
| `IndexMeaning.OrderIrrelevant` | Indexer/src/index.c:214-258 | two indexes of the same files are equal |
| `IndexMeaning.OneRecordPerFile` | Indexer/src/index.c:214-258 | with distinct paths a token has one record for a file at most |
| `Indexer.HashString` | Indexer/src/index.c:146-155 | computes the hash of the string |
| `Indexer.HashIsSum` | Indexer/src/index.c:146-155 | the hash is the sum of the characters |
| `Indexer.LowerCase` | Indexer/src/index.c:169-173 | every capital letter becomes the small letter at the same distance from a, every other character stays |
| `WordCounts.LowersOne` | Indexer/src/index.c:171-173 | that small letter is what tolower gives |
| `WordCounts.CountedRight` | Indexer/src/index.c:167-205 | collecting the words in lower case and counting equal ones gives the number of places where a word stands that is t in lower case |
| `WordCounts.CaseIgnored` | Indexer/src/index.c:169-174 | words that differ in case only are the same key |
| `WordCounts.NoCapitalCounted` | Indexer/src/index.c:169-174 | no key has a capital letter |
| `IndexMeaning.TokensAreLower` | Indexer/src/index.c:231-247 | no token of an index has a capital letter |
| `Indexer.CountWord` | Indexer/src/index.c:174-205 | the map counts one more occurrence of this word and of no other |
| `Indexer.TokenizeFile` | Indexer/src/index.c:156-212 | the map holds t if and only if a word of the text is t in lower case, and then the number of places where one stands |
| `IndexLists.FindIndex` | Indexer/src/index.c:106-119 | the structure with the token, NULL if and only if there is none; the walk with its iterator leaves the pointer graph and every reference count of the list as they were |
| `IndexLists.Indeces.constructor` | Indexer/src/index.c:84-94 | an empty sorted list ordered by compare_index stands for an empty index |
| `IndexLists.Indeces.CreateIndex` | Indexer/src/index.c:66-83 | a new token gets a record list of its own, ordered by compare_record, with its first record; the other record lists keep theirs |
| `IndexLists.Indeces.AddIndex` | Indexer/src/index.c:236-240 | the two insertions, into a new record list and into the list of tokens, have the effect of inserting an entry with that record into the index as a value |
| `IndexLists.Indeces.AddTo` | Indexer/src/index.c:245-246 | inserting into the record list of a found token changes the records of that token only |
| `IndexLists.Indeces.AddRecord` | Indexer/src/index.c:234-247 | search and insertion over the linked lists, with exact reference counts throughout, do what adding a record does to the index as a value |
| `IndexLists.IndexInserted` | Indexer/src/index.c:236-240 | inserting a structure into the list of tokens is inserting an entry into the index it stands for |
| `Index.AddSays` | Indexer/src/index.c:234-247 | an index with a record added is in order and states that fact more, and no other |
| `Indexer.AddRecords` | Indexer/src/index.c:231-254 | the index after entering a record for every pair the iterator gives |
| `Indexer.AddAllSays` | Indexer/src/index.c:231-254 | the index then states what it did before and the records entered, and is in order |
| `Indexer.IndexFile` | Indexer/src/index.c:214-258 | lexer, hash map and sorted lists together: the index is in order and states exactly what it did before and, for every word of the file, its number of occurrences under the relative path |
| `Indexer.IndexFiles` | Indexer/src/index.c:297-337 | a whole run, index_file for one file after the other on lists that start empty, ends with the index of the files under their relative paths, through the values the next two rows are about |
| `Indexer.IndexingCorrect` | Indexer/src/index.c:214-258 | after any sequence of files, token t has record (f, n) if and only if n > 0 is the number of words of a file of that path that are t in lower case; tokens ascend, records go by count descending and then name ascending |
| `Indexer.IndexingOrderIrrelevant` | Indexer/src/index.c:214-258 | two runs over the same files in different orders end with the same index |

## Left out

Sorted list:
- Failed memory allocation, a NULL list passed to SLCreateIterator, and a NULL destruct function.
- The nodes are one map per field of `struct Node`, keyed by address, and iterators are numbered entries of a map `current`, instead of objects: the model captures update in place and aliasing through addresses. Freed addresses may be used again.
- Freeing the list header itself in SLDestroy: the model's list stays, empty.
- `SortedList/src/sorted-list.c`, which differs in one comparison only.

Allocator:
- Alignment, the printed diagnostics, and the `fileFree` and `lineFree` fields.
- Wrap-around of `size + ENTRY_SIZE`: sizes are unbounded, as they are in effect with a 64-bit `size_t`.
- HeapArena.Arena.AbsorbNext: stands for both merges of customFree, which reach the pair of entries from different sides and write the same fields.

Lexer:
- Bytes outside ASCII, and locales other than C.
- Freeing the returned strings. `MultithreadedBanking/src/tokenizer.c` and `Tokenizer/src/tokenizer.c` are variants of the same code.

Bank:
- Sockets, select, time, fork, shared mappings, and processes that die while holding a mutex. A request is a nondeterministic input; a closed connection and a time-out are one input that ends a session.
- BankSafety.NoLostUpdate: balances are reals, so it does not speak of rounding in `float`.
- Names are read, compared and written whole: the cut to the name length of an account slot is not modelled, nor are the texts of responses.
- BankSafety.NoHoldAndWait: excludes deadlock; that a waiting client is served in the end is not promised, for a mutex may be taken by others again and again, and a session may last for ever.
- The printing of all accounts by the server's own process.

Index:
- A pointer to a record list is a position in the sequence of all record lists made; the destruction of the index at the end of the program, and with it destruct_index, is not modelled. The copies of token and path strings are values.
- `hm_remove` (never called by the index), `hm_destroy`, hashes below zero, and overflow of hashes and counts.
- HashMap.HashMap.Store: a chain is the sequence of its pairs, and a node is a position on it.
- Directory traversal, which IndexFiles replaces by the sequence of the files it comes upon; path fixing, `write_to_file`, prompts and usage text; opening and reading the file, whose text is a parameter.
