/**
  A hand-managed dynamic array of owned person records.

  A `List` owns an exactly-sized array of pointers to `Person` records and
  tracks its length. Records are appended at the end (the array grows by one
  slot), removed by index (the gap is closed by shifting the later slots left
  and the array shrinks by one slot), listed in index order with a 1-based
  display number, and released one by one when the list is destroyed.

  Fatal exits of the original become `Status` results that leave the list
  untouched; allocation failures are not modelled.
 */
module ListArrayApp {

  /** The C `int` that holds a person's age. */
  newtype int32 = x: int | -0x8000_0000 <= x < 0x8000_0000

  // ---------------------------------------------------------------------------
  // C strings
  // ---------------------------------------------------------------------------

  /** `strlen`: the number of characters before the first NUL (all of them if there is none). */
  function Strlen(s: seq<char>): (n: nat)
    ensures n <= |s| && '\0' !in s[..n]
    ensures n < |s| ==> s[n] == '\0'
  {
    if s == [] || s[0] == '\0' then 0 else 1 + Strlen(s[1..])
  }

  /** A well-formed C string buffer: its one NUL is its last character. */
  predicate IsCString(buf: seq<char>)
  {
    |buf| > 0 && buf[|buf| - 1] == '\0' && '\0' !in buf[..|buf| - 1]
  }

  /** The text a `%s` conversion prints for a buffer: everything before the first NUL. */
  function Text(buf: seq<char>): (t: string)
    ensures t <= buf && '\0' !in t
    ensures |t| < |buf| ==> buf[|t|] == '\0'
  {
    buf[..Strlen(buf)]
  }

  /**
    `my_strdup`: a new buffer of `strlen(str) + 1` characters holding the text
    of `str` and its terminator. `str` must be NUL-terminated.
   */
  function MyStrdup(str: seq<char>): (dup: seq<char>)
    requires '\0' in str
    ensures IsCString(dup)
    ensures dup <= str
  {
    str[..Strlen(str) + 1]
  }

  /** The first NUL is the only place a terminating position can be. */
  lemma StrlenUnique(s: seq<char>, n: nat)
    requires n <= |s| && '\0' !in s[..n]
    requires n < |s| ==> s[n] == '\0'
    ensures Strlen(s) == n
  {
  }

  /** A copy made by `my_strdup` prints as the original, and copying it again changes nothing. */
  lemma StrdupKeepsText(str: seq<char>)
    requires '\0' in str
    ensures Text(MyStrdup(str)) == Text(str)
    ensures MyStrdup(MyStrdup(str)) == MyStrdup(str)
  {
  }

  /** A string literal `t` is the buffer `t + "\0"`; duplicating it keeps the buffer and prints `t`. */
  lemma StrdupLiteral(t: string)
    requires '\0' !in t
    ensures MyStrdup(t + "\0") == t + "\0"
    ensures Text(MyStrdup(t + "\0")) == t
  {
  }

  // ---------------------------------------------------------------------------
  // Records
  // ---------------------------------------------------------------------------

  /** A person record. Its fields are never changed after construction. */
  class Person {
    const age: int32
    const sex: char
    const firstname: seq<char>
    const lastname: seq<char>

    /** `createPerson`: a fresh record owning its own copies of both names. */
    constructor (age: int32, sex: char, firstname: seq<char>, lastname: seq<char>)
      requires '\0' in firstname && '\0' in lastname
      ensures this.age == age && this.sex == sex
      ensures this.firstname == MyStrdup(firstname) && this.lastname == MyStrdup(lastname)
      ensures IsCString(this.firstname) && IsCString(this.lastname)
    {
      this.age := age;
      this.sex := sex;
      this.firstname := MyStrdup(firstname);
      this.lastname := MyStrdup(lastname);
    }
  }

  // ---------------------------------------------------------------------------
  // Specification of the slot sequence
  // ---------------------------------------------------------------------------

  /** The slots left after removing slot `i` and closing the gap. */
  function Removed<T>(s: seq<T>, i: nat): (r: seq<T>)
    requires i < |s|
    ensures |r| == |s| - 1
    ensures forall j :: 0 <= j < i ==> r[j] == s[j]
    ensures forall j :: i <= j < |r| ==> r[j] == s[j + 1]
  {
    s[..i] + s[i + 1..]
  }

  /** Removal destroys exactly the record at `i` and keeps every other one. */
  lemma RemovedMultiset<T>(s: seq<T>, i: nat)
    requires i < |s|
    ensures multiset(Removed(s, i)) + multiset{s[i]} == multiset(s)
  {
    assert s == s[..i] + [s[i]] + s[i + 1..];
  }

  /** Removing the slot just appended gives back the slots as they were. */
  lemma RemoveLastOfAppend<T>(s: seq<T>, x: T)
    ensures Removed(s + [x], |s|) == s
  {
  }

  /** No record is held by two slots (empty slots may repeat). */
  predicate Unaliased(s: seq<Person?>)
  {
    forall i, j :: 0 <= i < j < |s| && s[i] != null ==> s[i] != s[j]
  }

  /** Removal keeps slots free of aliasing, and the removed record is no longer held. */
  lemma RemovedUnaliased(s: seq<Person?>, i: nat)
    requires i < |s| && Unaliased(s)
    ensures Unaliased(Removed(s, i))
    ensures s[i] != null ==> s[i] !in Removed(s, i)
  {
  }

  /** Appending a record the list does not yet own keeps the slots free of aliasing. */
  lemma AppendedUnaliased(s: seq<Person?>, p: Person?)
    requires Unaliased(s)
    requires p == null || p !in s
    ensures Unaliased(s + [p])
  {
  }

  // ---------------------------------------------------------------------------
  // Printing
  // ---------------------------------------------------------------------------

  /** One printed line: 1-based display number, age, sex, first name, last name. */
  datatype Line = Line(number: nat, age: int32, sex: char, firstname: string, lastname: string)

  /**
    The line printed for person `p` shown as number `number`; for names held in
    well-formed C strings, the printed name is the buffer without its terminator.
   */
  function Entry(number: nat, p: Person): (e: Line)
    ensures e.number == number && e.age == p.age && e.sex == p.sex
    ensures IsCString(p.firstname) ==> e.firstname + "\0" == p.firstname
    ensures IsCString(p.lastname) ==> e.lastname + "\0" == p.lastname
  {
    Line(number, p.age, p.sex, Text(p.firstname), Text(p.lastname))
  }

  /** Every slot is filled. */
  predicate AllFilled(s: seq<Person?>)
  {
    forall i :: 0 <= i < |s| ==> s[i] != null
  }

  /** The lines printed for a sequence of filled slots, in the order they are printed. */
  function Listing(s: seq<Person?>): (lines: seq<Line>)
    requires AllFilled(s)
    ensures |lines| == |s|
    ensures forall i :: 0 <= i < |s| ==> lines[i] == Entry(i + 1, s[i])
  {
    if s == [] then [] else Listing(s[..|s| - 1]) + [Entry(|s|, s[|s| - 1])]
  }

  /** Appending a record adds exactly one line, numbered one past the old last. */
  lemma ListingAppend(s: seq<Person?>, p: Person)
    requires AllFilled(s)
    ensures AllFilled(s + [p])
    ensures Listing(s + [p]) == Listing(s) + [Entry(|s| + 1, p)]
  {
  }

  /**
    After removing slot `i`, the lines before `i` are unchanged and every later
    line shows the record of the next old line, renumbered one down.
   */
  lemma ListingRemoved(s: seq<Person?>, i: nat)
    requires i < |s| && AllFilled(s)
    ensures AllFilled(Removed(s, i))
    ensures forall j :: 0 <= j < i ==> Listing(Removed(s, i))[j] == Listing(s)[j]
    ensures forall j :: i <= j < |s| - 1 ==>
      Listing(Removed(s, i))[j] == Listing(s)[j + 1].(number := j + 1)
  {
    var r := Removed(s, i);
    assert AllFilled(r) by {
      forall k | 0 <= k < |r|
        ensures r[k] != null
      {
        if k < i { assert r[k] == s[k]; } else { assert r[k] == s[k + 1]; }
      }
    }
    var before, after := Listing(s), Listing(r);
    forall j | i <= j < |s| - 1
      ensures after[j] == before[j + 1].(number := j + 1)
    {
      assert r[j] == s[j + 1];
    }
  }

  // ---------------------------------------------------------------------------
  // The list
  // ---------------------------------------------------------------------------

  /** Outcome of a removal: the two fatal checks of the original become error results. */
  datatype Status = Ok | IndexOutOfBounds | InvalidPointer

  /**
    A fresh array of `n` slots with the common prefix copied and any new slots
    empty: `realloc` when growing, the allocate-and-copy loop when shrinking.
   */
  method Reallocate(a: array<Person?>, n: nat) returns (b: array<Person?>)
    ensures fresh(b) && b.Length == n
    ensures forall i :: 0 <= i < n ==> b[i] == if i < a.Length then a[i] else null
  {
    b := new Person?[n](_ => null);
    var i := 0;
    while i < n && i < a.Length
      invariant 0 <= i <= n && i <= a.Length
      invariant forall k :: 0 <= k < i ==> b[k] == a[k]
      invariant forall k :: i <= k < n ==> b[k] == null
    {
      b[i] := a[i];
      i := i + 1;
    }
  }

  class List {
    var persons: array<Person?>
    var size: nat

    /** The array always has exactly `size` slots. */
    ghost predicate Valid()
      reads this
    {
      persons.Length == size
    }

    /** The slots of the list, in index order. */
    ghost function Contents(): seq<Person?>
      reads this, persons
    {
      persons[..]
    }

    /** `createList`: `size` slots, all still empty. */
    constructor (size: nat)
      ensures Valid() && fresh(persons)
      ensures this.size == size
      ensures forall i :: 0 <= i < size ==> persons[i] == null
    {
      persons := new Person?[size](_ => null);
      this.size := size;
    }

    /** `addToList`: grow by one slot and store `person` last; ownership passes to the list. */
    method AddToList(person: Person?)
      requires Valid()
      modifies this
      ensures Valid() && fresh(persons)
      ensures size == old(size) + 1
      ensures Contents() == old(Contents()) + [person]
      ensures old(Unaliased(Contents())) && (person == null || person !in old(Contents()))
        ==> Unaliased(Contents())
    {
      ghost var before := persons[..];
      var temp := Reallocate(persons, size + 1);
      persons := temp;
      persons[size] := person;
      size := size + 1;
      assert persons[..] == before + [person];
      if Unaliased(before) && (person == null || person !in before) {
        AppendedUnaliased(before, person);
      }
    }

    /**
      `removeFromList`: an index past the end or an empty slot is an error and
      changes nothing; otherwise the record at `index` is destroyed, the later
      slots move one place left and the array shrinks to the new size.
     */
    method RemoveFromList(index: nat) returns (status: Status)
      requires Valid()
      modifies this, persons
      ensures Valid()
      ensures index >= old(size) ==> status == IndexOutOfBounds
      ensures index < old(size) && old(persons[index]) == null ==> status == InvalidPointer
      ensures index < old(size) && old(persons[index]) != null ==> status == Ok
      ensures status != Ok ==>
        persons == old(persons) && size == old(size) && persons[..] == old(persons[..])
      ensures status == Ok ==>
        fresh(persons) && size == old(size) - 1 &&
        Contents() == Removed(old(Contents()), index)
      ensures status == Ok && old(Unaliased(Contents())) ==>
        Unaliased(Contents()) && old(persons[index]) !in Contents()
    {
      if index >= size {
        return IndexOutOfBounds;
      }
      if persons[index] == null {
        return InvalidPointer;
      }
      ghost var before := persons[..];

      // The record at `index` is destroyed and its slot cleared.
      persons[index] := null;

      // Close the gap.
      var i := index;
      while i < size - 1
        invariant persons.Length == size == |before| && persons == old(persons)
        invariant index <= i <= size - 1
        invariant forall k :: 0 <= k < index ==> persons[k] == before[k]
        invariant forall k :: index <= k < i ==> persons[k] == before[k + 1]
        invariant forall k :: i < k < size ==> persons[k] == before[k]
      {
        persons[i] := persons[i + 1];
        i := i + 1;
      }

      size := size - 1;

      // Move the compacted prefix into an array of the exact new size.
      ghost var shifted := persons[..];
      persons := Reallocate(persons, size);
      assert persons[..] == Removed(before, index) by {
        assert forall k :: 0 <= k < size ==> persons[k] == shifted[k];
      }
      if Unaliased(before) {
        RemovedUnaliased(before, index);
      }
      status := Ok;
    }

    /** `printList`: one line per slot, in index order, numbered from 1; nothing changes. */
    method PrintList() returns (lines: seq<Line>)
      requires Valid() && AllFilled(Contents())
      ensures lines == Listing(Contents())
    {
      lines := [];
      var i := 0;
      while i < size
        invariant 0 <= i <= size
        invariant AllFilled(persons[..i])
        invariant lines == Listing(persons[..i])
      {
        assert persons[..i + 1] == persons[..i] + [persons[i]];
        ListingAppend(persons[..i], persons[i]);
        lines := lines + [Entry(i + 1, persons[i])];
        i := i + 1;
      }
      assert persons[..i] == persons[..];
    }

    /**
      `freeList`: the records released, in the order they are released: every
      slot once, in index order, so an unaliased list releases no record twice.
     */
    method FreeList() returns (released: seq<Person>)
      requires Valid() && AllFilled(Contents())
      ensures |released| == size
      ensures forall i :: 0 <= i < size ==> released[i] == persons[i]
      ensures Unaliased(Contents()) ==>
        forall i, j :: 0 <= i < j < |released| ==> released[i] != released[j]
    {
      released := [];
      var i := 0;
      while i < size
        invariant 0 <= i <= size
        invariant |released| == i
        invariant forall k :: 0 <= k < i ==> released[k] == persons[k]
      {
        released := released + [persons[i]];
        i := i + 1;
      }
    }

    /**
      Appending a record and then removing the last slot restores the list
      exactly; appending an empty slot instead leaves it there, since removal
      refuses an empty slot.
     */
    method AppendThenRemove(person: Person?) returns (status: Status)
      requires Valid()
      modifies this
      ensures Valid()
      ensures status == (if person == null then InvalidPointer else Ok)
      ensures status == Ok ==> size == old(size) && Contents() == old(Contents())
      ensures status != Ok ==> size == old(size) + 1 && Contents() == old(Contents()) + [null]
    {
      AddToList(person);
      status := RemoveFromList(size - 1);
      RemoveLastOfAppend(old(Contents()), person);
    }
  }

  /** `createPerson` called with string literals, as the driver does. */
  method NewPerson(age: int32, sex: char, firstname: string, lastname: string) returns (p: Person)
    requires '\0' !in firstname && '\0' !in lastname
    ensures fresh(p)
    ensures p.age == age && p.sex == sex
    ensures Text(p.firstname) == firstname && Text(p.lastname) == lastname
  {
    StrdupLiteral(firstname);
    StrdupLiteral(lastname);
    p := new Person(age, sex, firstname + "\0", lastname + "\0");
  }

  /** What the driver prints before removing, after removing, and after adding. */
  const PrintedBefore: seq<Line> :=
    [Line(1, 25, 'm', "John", "Doe"), Line(2, 30, 'f', "Jane", "Smith"), Line(3, 40, 'm', "Michael", "Johnson")]
  const PrintedAfterRemove: seq<Line> :=
    [Line(1, 30, 'f', "Jane", "Smith"), Line(2, 40, 'm', "Michael", "Johnson")]
  const PrintedAfterAdd: seq<Line> :=
    [Line(1, 30, 'f', "Jane", "Smith"), Line(2, 40, 'm', "Michael", "Johnson"), Line(3, 25, 'm', "John", "Doe")]

  /** The three records the driver creates first. */
  method DriverRecords() returns (john: Person, jane: Person, michael: Person)
    ensures [Entry(1, john), Entry(2, jane), Entry(3, michael)] == PrintedBefore
    ensures john != jane && john != michael && jane != michael
  {
    john := NewPerson(25, 'm', "John", "Doe");
    jane := NewPerson(30, 'f', "Jane", "Smith");
    michael := NewPerson(40, 'm', "Michael", "Johnson");
  }

  /** Three distinct records in three slots: unaliased, and listed in slot order. */
  lemma ThreeRecords(a: Person, b: Person, c: Person)
    requires a != b && a != c && b != c
    ensures Unaliased([a, b, c])
    ensures Listing([a, b, c]) == [Entry(1, a), Entry(2, b), Entry(3, c)]
  {
    var s := [a, b, c];
    assert s[0] == a && s[1] == b && s[2] == c;
    forall i, j | 0 <= i < j < |s|
      ensures s[i] != s[j]
    {
      assert i == 0 || i == 1;
      assert j == 1 || j == 2;
    }
    assert AllFilled(s);
    var lines := Listing(s);
    assert lines[0] == Entry(1, a) && lines[1] == Entry(2, b) && lines[2] == Entry(3, c);
  }

  /** The driver's first step: a list of three slots, each filled with a new record. */
  method FillDriverList() returns (list: List)
    ensures fresh(list) && fresh(list.persons) && list.Valid() && AllFilled(list.Contents())
    ensures Listing(list.Contents()) == PrintedBefore
    ensures Unaliased(list.Contents())
  {
    var john, jane, michael := DriverRecords();
    ghost var records := [john, jane, michael];
    ThreeRecords(john, jane, michael);

    list := new List(3);
    list.persons[0] := john;
    list.persons[1] := jane;
    list.persons[2] := michael;
    assert list.Contents() == records;
  }

  /** The driver's second step: remove the first record. */
  method RemoveFirst(list: List)
    requires list.Valid() && AllFilled(list.Contents())
    requires Listing(list.Contents()) == PrintedBefore
    requires Unaliased(list.Contents())
    modifies list, list.persons
    ensures fresh(list.persons) && list.Valid() && AllFilled(list.Contents())
    ensures Listing(list.Contents()) == PrintedAfterRemove
    ensures Unaliased(list.Contents())
  {
    ghost var filled := list.Contents();
    var status := list.RemoveFromList(0);
    assert status == Ok;
    ListingRemoved(filled, 0);
  }

  /** The driver's third step: append a new John Doe record. */
  method AppendJohnDoe(list: List)
    requires list.Valid() && AllFilled(list.Contents())
    requires Listing(list.Contents()) == PrintedAfterRemove
    requires Unaliased(list.Contents())
    modifies list
    ensures fresh(list.persons) && list.Valid() && AllFilled(list.Contents())
    ensures Listing(list.Contents()) == PrintedAfterAdd
    ensures Unaliased(list.Contents())
  {
    ghost var shrunk := list.Contents();
    var person1 := NewPerson(25, 'm', "John", "Doe");
    list.AddToList(person1);
    ListingAppend(shrunk, person1);
  }

  /**
    The driver of the original program: three records, remove the first,
    append a new one, print after each step, then destroy the list.
   */
  method Scenario() returns (before: seq<Line>, afterRemove: seq<Line>, afterAdd: seq<Line>,
                             released: seq<Person>)
    ensures before == PrintedBefore
    ensures afterRemove == PrintedAfterRemove
    ensures afterAdd == PrintedAfterAdd
    ensures |released| == 3
    ensures forall i :: 0 <= i < 3 ==> Entry(i + 1, released[i]) == afterAdd[i]
    ensures forall i, j :: 0 <= i < j < |released| ==> released[i] != released[j]
  {
    var list := FillDriverList();
    before := list.PrintList();
    RemoveFirst(list);
    afterRemove := list.PrintList();
    AppendJohnDoe(list);
    afterAdd := list.PrintList();
    released := list.FreeList();
  }
}
