# ListArrayApp in Dafny

A model of ListArrayApp: a hand-managed dynamic array of owned `Person`
records (`List { Person** persons; size_t size; }`). The array always has
exactly `size` slots. It grows by one slot on every append and shrinks by one
slot on every removal. A removal destroys one record and shifts the later
slots left to close the gap. Printing lists the records in slot order with a
1-based number. Destroying the list releases every record.

Everything is in one module, `ListArrayApp` (file `ListArrayApp.dfy`), laid
out like the C++ file:

- **C strings.** `Strlen`, `MyStrdup` and `Text` model `strlen`, `my_strdup`
  and what a `%s` conversion prints. A `const char*` argument is modelled as
  the characters that can be read from it, terminator included.
- **Records.** `Person` is a class with constant fields. The source never
  changes a record after creating it. A class keeps pointer identity, so "no
  two slots hold the same record" can be stated. Its constructor is
  `createPerson`.
- **Slot sequences.** `Removed` specifies removal with compaction.
  `Unaliased` says that no record sits in two slots. `Listing` specifies the
  printed lines.
- **The list.** `List` is a class holding `persons: array<Person?>` and
  `size: nat`. `Valid()` says the array has exactly `size` slots. The
  constructor, `AddToList`, `RemoveFromList`, `PrintList` and `FreeList`
  follow `createList`, `addToList`, `removeFromList`, `printList` and
  `freeList`.
- **The driver.** `Scenario` follows `main`, split into steps
  (`FillDriverList`, `RemoveFirst`, `AppendJohnDoe`). It proves the exact
  lines printed after each step.

The original stops the process with `exit(EXIT_FAILURE)` on a bad index or an
empty slot. Here `RemoveFromList` returns `IndexOutOfBounds` or
`InvalidPointer` instead and leaves the list unchanged. `createList(size)`
leaves its slots uninitialised. The model marks such a slot `null`, so the
empty-slot check in `removeFromList` can actually be reached. `printList` and
`freeList` dereference every slot, so they require every slot to be filled.

## Model

| member | source | states |
|---|---|---|
| `ListArrayApp.Strlen` | ListArrayApp/ListArrayApp.cpp:21 | the length is the position of the first NUL: no NUL comes before it, and a NUL sits at it unless the buffer ends there |
| `ListArrayApp.StrlenUnique` | ListArrayApp/ListArrayApp.cpp:21 | any position with no NUL before it and a NUL at it (or at the end) is the length, so the contract of `Strlen` determines it |
| `ListArrayApp.MyStrdup` | ListArrayApp/ListArrayApp.cpp:20-26 | the copy is a well-formed C string (its only NUL is its last character) and a prefix of the source buffer: the source text plus its terminator |
| `ListArrayApp.StrdupKeepsText` | ListArrayApp/ListArrayApp.cpp:20-26 | a duplicate prints the same text as the original, and duplicating a duplicate changes nothing |
| `ListArrayApp.StrdupLiteral` | ListArrayApp/ListArrayApp.cpp:20-26 | duplicating a string literal gives back the literal with its terminator, which prints as the literal |
| `ListArrayApp.Text` | ListArrayApp/ListArrayApp.cpp:122 | what `%s` prints: a prefix of the buffer with no NUL in it, ending just before the first NUL (or at the end of the buffer) |
| `ListArrayApp.Person.constructor` | ListArrayApp/ListArrayApp.cpp:29-43 | the new record has the given age and sex and owns `my_strdup` copies of both names, each a well-formed C string |
| `ListArrayApp.List.constructor` | ListArrayApp/ListArrayApp.cpp:47-60 | a fresh array of exactly `size` slots, every slot empty |
| `ListArrayApp.Reallocate` | ListArrayApp/ListArrayApp.cpp:64-111 | a fresh array of the requested length that keeps the common prefix of the old one; any added slot is empty |
| `ListArrayApp.List.AddToList` | ListArrayApp/ListArrayApp.cpp:63-72 | size grows by exactly one, the array length still equals size, the earlier slots are unchanged and the new record is last; appending a record not yet held keeps the list unaliased |
| `ListArrayApp.Removed` | ListArrayApp/ListArrayApp.cpp:95-101 | one slot fewer; slots before the index are unchanged and each later slot holds the old slot one place to its right |
| `ListArrayApp.RemovedMultiset` | ListArrayApp/ListArrayApp.cpp:87-98 | removal takes away exactly the record at the index and keeps every other one |
| `ListArrayApp.RemovedUnaliased` | ListArrayApp/ListArrayApp.cpp:87-98 | removal from an unaliased list leaves it unaliased, and the destroyed record is no longer held by any slot |
| `ListArrayApp.AppendedUnaliased` | ListArrayApp/ListArrayApp.cpp:69-71 | appending an empty slot, or a record the list does not hold, keeps the list unaliased |
| `ListArrayApp.List.RemoveFromList` | ListArrayApp/ListArrayApp.cpp:75-114 | an index at or past `size` yields `IndexOutOfBounds` and an empty slot yields `InvalidPointer`, both with the array and size untouched; otherwise `Ok`, size one less, the array fresh with exactly `size` slots, contents the old contents with that slot removed; an unaliased list stays unaliased and no longer holds the destroyed record |
| `ListArrayApp.RemoveLastOfAppend` | ListArrayApp/ListArrayApp.cpp:63-114 | removing the slot that was just appended gives back the previous slots |
| `ListArrayApp.List.AppendThenRemove` | ListArrayApp/ListArrayApp.cpp:63-114 | appending a record and then removing index `size-1` restores the previous size and contents; if an empty slot was appended, removal reports `InvalidPointer` and the slot stays |
| `ListArrayApp.Entry` | ListArrayApp/ListArrayApp.cpp:122-124 | one printed line carries the display number, the record's age and sex, and each name as its C-string buffer without the terminator |
| `ListArrayApp.Listing` | ListArrayApp/ListArrayApp.cpp:120-126 | one line per slot, in slot order; line `i` carries number `i+1` and the age, sex and printed names of slot `i` |
| `ListArrayApp.ListingAppend` | ListArrayApp/ListArrayApp.cpp:120-126 | after an append, the listing is the old listing plus one line for the new record, numbered `size+1` |
| `ListArrayApp.ListingRemoved` | ListArrayApp/ListArrayApp.cpp:120-126 | after a removal, the lines before the index are unchanged; each later line shows the next old line's record, renumbered one down |
| `ListArrayApp.List.PrintList` | ListArrayApp/ListArrayApp.cpp:120-126 | read-only; returns exactly the listing of the current slots |
| `ListArrayApp.List.FreeList` | ListArrayApp/ListArrayApp.cpp:129-137 | releases the record of every slot once, in slot order; in an unaliased list no record is released twice |
| `ListArrayApp.NewPerson` | ListArrayApp/ListArrayApp.cpp:143-145 | `createPerson` on string literals gives a fresh record that prints the given age, sex and names |
| `ListArrayApp.DriverRecords` | ListArrayApp/ListArrayApp.cpp:143-145 | the three records created by the driver print as John Doe, Jane Smith and Michael Johnson, numbered 1 to 3 |
| `ListArrayApp.ThreeRecords` | ListArrayApp/ListArrayApp.cpp:142-145 | three distinct records placed in three slots leave the list unaliased and are listed in slot order, numbered 1 to 3 |
| `ListArrayApp.FillDriverList` | ListArrayApp/ListArrayApp.cpp:142-145 | a fresh three-slot list, all slots filled with distinct records, whose listing is the driver's first printout |
| `ListArrayApp.RemoveFirst` | ListArrayApp/ListArrayApp.cpp:151 | removing index 0 from that list succeeds and leaves Jane Smith and Michael Johnson, numbered 1 and 2, still unaliased |
| `ListArrayApp.AppendJohnDoe` | ListArrayApp/ListArrayApp.cpp:158-160 | appending a new John Doe record puts it third, after Jane Smith and Michael Johnson, and keeps the list unaliased |
| `ListArrayApp.Scenario` | ListArrayApp/ListArrayApp.cpp:139-170 | the three printouts of the driver, line for line, and the three records released at the end in final slot order, no record released twice |

## Left out

- Text output: the `printf` format, the "Before removing:" headers, and the `stderr` diagnostics. Printing returns the `Line` records that the format would show.
- Process termination and exit codes. The two caller errors become `Status` results instead.
- Allocation-failure branches at ListArrayApp/ListArrayApp.cpp:31-34, 39-42, 49-52, 54-57, 65-68 and 105-108. Allocation in the model cannot fail.
- The `list->persons == nullptr` half of the check at line 82. A Dafny array reference is never null, so only the empty-slot half is modelled.
- Mixing allocators is undefined behaviour in C++: `std::realloc` on a `new[]` buffer (line 64), and `delete[]` on a buffer that `realloc` produced (lines 112 and 135, which `main` reaches through `addToList` at line 160 and `freeList` at line 167). Both are modelled as ordinary reallocation and release.
- `delete` and `delete[]`. Memory is not tracked, so use after free and a second `freeList` are not modelled.
- ListArrayApp.List.FreeList: returns the records it would release instead of releasing them. The list is still readable afterwards.
- ListArrayApp.List.constructor: models the uninitialised slots of `createList` as empty (`null`) slots rather than garbage.
- Integer widths: `size` and the display number are unbounded naturals, so `size_t` overflow is not modelled. `age` is a 32-bit `int32`. `sex` is a Dafny `char` rather than a C byte.
- Name buffers are character sequences held by value. That each name is a separate heap allocation is not captured.
