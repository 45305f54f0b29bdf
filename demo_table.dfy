/** The demo hash table: five slots, each empty or holding one `key→value`
    string, with insert, search and delete addressed by `simpleHash(key) % 5`
    and the text shown in each table cell. */
module HashDemo {
  import opened JsString
  import opened StringHash

  /** Number of slots; the table never grows or shrinks. */
  const Size: nat := 5

  /** U+2192 RIGHTWARDS ARROW, the separator between key and value in an entry. */
  const Arrow: CodeUnit := 0x2192

  datatype Option<T> = None | Some(value: T)

  /** A slot is `null` (None) or an entry string. */
  type Slot = Option<Text>

  /** The slots in index order. */
  type Table = seq<Slot>

  /** What an operation reports back to the page. */
  datatype Feedback =
    | ValidationError
    | Inserted(index: nat, entry: Text)
    | Found(index: nat, entry: Text)
    | Deleted(index: nat, key: Text)
    | NotFound(key: Text)

  /** An operation's report together with the table it leaves behind. */
  datatype Outcome = Outcome(feedback: Feedback, table: Table)

  /** The table at page load: five empty slots. */
  function EmptyTable(): (t: Table)
    ensures |t| == Size
    ensures forall i :: 0 <= i < Size ==> t[i] == None
  {
    [None, None, None, None, None]
  }

  /** Every slot the operations can produce: empty, or an entry containing the arrow. */
  predicate WellFormedSlot(slot: Slot) {
    slot.None? || Arrow in slot.value
  }

  predicate WellFormed(t: Table) {
    |t| == Size && forall i :: 0 <= i < Size ==> WellFormedSlot(t[i])
  }

  /** The slot a key is stored in. */
  function SlotIndex(key: Text): (i: nat)
    ensures i < Size
  {
    Hash(key) % Size
  }

  /** The stored string `${key}→${value}`. */
  function Entry(key: Text, value: Text): (e: Text)
    ensures StartsWith(e, key)
    ensures Arrow in e
    ensures |e| == |key| + 1 + |value| && e[|key|] == Arrow && e[|key| + 1..] == value
  {
    key + [Arrow] + value
  }

  /** JavaScript truthiness of a slot value: `null` and the empty string are false. */
  predicate Truthy(slot: Slot) {
    slot.Some? && slot.value != []
  }

  /** The test search and delete apply to their slot: `value && value.startsWith(key)`.
      It compares a prefix of the whole `key→value` string, not the stored key. */
  predicate Matches(slot: Slot, key: Text) {
    Truthy(slot) && StartsWith(slot.value, key)
  }

  /** simulateInsert: trims both inputs, rejects a blank one, and otherwise
      overwrites the key's slot with `key→value`, whatever it held before. */
  function Insert(t: Table, rawKey: Text, rawValue: Text): (r: Outcome)
    requires |t| == Size
    ensures |r.table| == Size
    ensures r.feedback.ValidationError? <==> Trim(rawKey) == [] || Trim(rawValue) == []
    ensures r.feedback.ValidationError? ==> r.table == t
    ensures !r.feedback.ValidationError? ==>
      var key := Trim(rawKey);
      var i := SlotIndex(key);
      && r.feedback == Inserted(i, Entry(key, Trim(rawValue)))
      && r.table[i] == Some(Entry(key, Trim(rawValue)))
      && forall j :: 0 <= j < Size && j != i ==> r.table[j] == t[j]
  {
    var key, value := Trim(rawKey), Trim(rawValue);
    if key == [] || value == [] then
      Outcome(ValidationError, t)
    else
      var index := SlotIndex(key);
      var entry := Entry(key, value);
      Outcome(Inserted(index, entry), t[index := Some(entry)])
  }

  /** simulateSearch: trims the key, rejects a blank one, and otherwise reports
      the key's slot as found exactly when it holds a string starting with the key.
      The table is only read. */
  function Search(t: Table, rawKey: Text): (r: Feedback)
    requires |t| == Size
    ensures r.ValidationError? <==> Trim(rawKey) == []
    ensures r.Found? <==> Trim(rawKey) != [] && Matches(t[SlotIndex(Trim(rawKey))], Trim(rawKey))
    ensures r.Found? ==> r.index == SlotIndex(Trim(rawKey)) && t[r.index] == Some(r.entry)
    ensures r.NotFound? ==> r.key == Trim(rawKey)
    ensures r.ValidationError? || r.Found? || r.NotFound?
  {
    var key := Trim(rawKey);
    if key == [] then
      ValidationError
    else
      var index := SlotIndex(key);
      if Matches(t[index], key) then Found(index, t[index].value) else NotFound(key)
  }

  /** simulateDelete: trims the key, rejects a blank one, and otherwise empties
      the key's slot exactly when it holds a string starting with the key. */
  function Delete(t: Table, rawKey: Text): (r: Outcome)
    requires |t| == Size
    ensures |r.table| == Size
    ensures r.feedback.ValidationError? <==> Trim(rawKey) == []
    ensures r.feedback.Deleted? <==> Trim(rawKey) != [] && Matches(t[SlotIndex(Trim(rawKey))], Trim(rawKey))
    ensures !r.feedback.Deleted? ==> r.table == t
    ensures Trim(rawKey) != [] && !r.feedback.Deleted? ==> r.feedback == NotFound(Trim(rawKey))
    ensures r.feedback.Deleted? ==>
      var key := Trim(rawKey);
      var i := SlotIndex(key);
      && r.feedback == Deleted(i, key)
      && t[i].Some? && r.table[i] == None
      && forall j :: 0 <= j < Size && j != i ==> r.table[j] == t[j]
  {
    var key := Trim(rawKey);
    if key == [] then
      Outcome(ValidationError, t)
    else
      var index := SlotIndex(key);
      if Matches(t[index], key) then
        Outcome(Deleted(index, key), t[index := None])
      else
        Outcome(NotFound(key), t)
  }

  /** Every operation keeps every slot empty or holding an arrow-separated entry. */
  lemma OperationsPreserveWellFormed(t: Table, rawKey: Text, rawValue: Text)
    requires WellFormed(t)
    ensures WellFormed(Insert(t, rawKey, rawValue).table)
    ensures WellFormed(Delete(t, rawKey).table)
  {
  }

  /** A blank key (empty or white space only) is rejected by all three operations
      and leaves the table as it was, whatever the table holds. */
  lemma {:induction false} BlankKeyRejected(t: Table, rawKey: Text, rawValue: Text)
    requires |t| == Size
    requires forall i :: 0 <= i < |rawKey| ==> IsWhiteSpace(rawKey[i])
    ensures Insert(t, rawKey, rawValue) == Outcome(ValidationError, t)
    ensures Search(t, rawKey) == ValidationError
    ensures Delete(t, rawKey) == Outcome(ValidationError, t)
  {
    TrimEmptyIffBlank(rawKey);
  }

  /** Right after a valid insert, searching the same key finds the new entry in
      the same slot. */
  lemma InsertThenSearch(t: Table, rawKey: Text, rawValue: Text)
    requires |t| == Size
    requires Trim(rawKey) != [] && Trim(rawValue) != []
    ensures Insert(t, rawKey, rawValue).feedback.Inserted?
    ensures var ins := Insert(t, rawKey, rawValue).feedback;
      Search(Insert(t, rawKey, rawValue).table, rawKey) == Found(ins.index, ins.entry)
  {
  }

  /** Right after a valid insert, deleting the same key empties that slot and
      leaves the other four as they were before the insert. */
  lemma InsertThenDelete(t: Table, rawKey: Text, rawValue: Text)
    requires |t| == Size
    requires Trim(rawKey) != [] && Trim(rawValue) != []
    ensures var i := SlotIndex(Trim(rawKey));
      Delete(Insert(t, rawKey, rawValue).table, rawKey) == Outcome(Deleted(i, Trim(rawKey)), t[i := None])
  {
  }

  /** After a successful delete the same key is no longer found, and deleting it
      again changes nothing. */
  lemma DeleteThenSearch(t: Table, rawKey: Text)
    requires |t| == Size
    requires Delete(t, rawKey).feedback.Deleted?
    ensures Search(Delete(t, rawKey).table, rawKey) == NotFound(Trim(rawKey))
    ensures Delete(Delete(t, rawKey).table, rawKey) == Outcome(NotFound(Trim(rawKey)), Delete(t, rawKey).table)
  {
  }

  /** Inserting into the slot of an earlier insert replaces it: the table ends up
      as if only the later insert had happened. This covers both the same key
      with a new value and a different key that collides. */
  lemma LaterInsertOverwrites(t: Table, k1: Text, v1: Text, k2: Text, v2: Text)
    requires |t| == Size
    requires Trim(k1) != [] && Trim(v1) != []
    requires SlotIndex(Trim(k1)) == SlotIndex(Trim(k2))
    ensures Insert(Insert(t, k1, v1).table, k2, v2).table ==
      (if Trim(k2) == [] || Trim(v2) == [] then Insert(t, k1, v1).table else Insert(t, k2, v2).table)
  {
  }

  /** The prefix test accepts any key that the stored string starts with: a
      search for a shorter key that hashes to the same slot finds the entry of a
      longer one. */
  lemma PrefixKeyFound(t: Table, rawKey: Text, rawValue: Text, probe: Text)
    requires |t| == Size
    requires Trim(rawKey) != [] && Trim(rawValue) != []
    requires Trim(probe) != [] && StartsWith(Trim(rawKey), Trim(probe))
    requires SlotIndex(Trim(probe)) == SlotIndex(Trim(rawKey))
    ensures Search(Insert(t, rawKey, rawValue).table, probe).Found?
  {
  }

  /** The digit naming a slot index, `index + ''`. */
  function Digit(i: nat): (c: CodeUnit)
    requires i < 10
    ensures 0x30 <= c <= 0x39
    ensures c as int - 0x30 == i
  {
    (0x30 + i) as CodeUnit
  }

  /** The text of cell `index`: `index + ': ' + (value ? value : '-')`. */
  function Cell(index: nat, slot: Slot): (r: Text)
    requires index < Size
    ensures |r| >= 4 && r[..3] == [Digit(index), 0x3A, 0x20]
    ensures Truthy(slot) ==> r[3..] == slot.value
    ensures !Truthy(slot) ==> r[3..] == [0x2D]
  {
    [Digit(index), 0x3A, 0x20] + (if Truthy(slot) then slot.value else [0x2D])
  }

  /** updateDemoTable: the text of all five cells, in index order. */
  function Render(t: Table): (cells: seq<Text>)
    requires |t| == Size
    ensures |cells| == Size
    ensures forall i :: 0 <= i < Size ==> cells[i] == Cell(i, t[i])
  {
    seq(Size, i requires 0 <= i < Size => Cell(i, t[i]))
  }

  /** The cells show the table exactly: two well-formed tables that render the
      same are the same table (an entry is never shown as `-`). */
  lemma RenderDeterminesTable(t1: Table, t2: Table)
    requires WellFormed(t1) && WellFormed(t2)
    requires Render(t1) == Render(t2)
    ensures t1 == t2
  {
  }

  /** One cell's text determines its slot, for every slot the operations produce. */
  lemma CellDeterminesSlot(i: nat, s1: Slot, s2: Slot, c1: Text, c2: Text)
    requires i < Size && WellFormedSlot(s1) && WellFormedSlot(s2)
    requires c1 == Cell(i, s1) && c2 == Cell(i, s2) && c1 == c2
    ensures s1 == s2
  {
  }

  /** The demo's table object: the five slots live in an array that the three
      operations update in place. */
  class DemoTable {
    const slots: array<Slot>

    ghost predicate Valid()
      reads this, slots
    {
      slots.Length == Size && WellFormed(slots[..])
    }

    /** The table at page load. */
    constructor ()
      ensures Valid() && fresh(slots)
      ensures slots[..] == EmptyTable()
    {
      var a := new Slot[Size](_ => None);
      assert a[..] == EmptyTable();
      slots := a;
    }

    method SimulateInsert(rawKey: Text, rawValue: Text) returns (feedback: Feedback)
      requires Valid()
      modifies slots
      ensures Valid()
      ensures Outcome(feedback, slots[..]) == Insert(old(slots[..]), rawKey, rawValue)
    {
      var key, value := Trim(rawKey), Trim(rawValue);
      if key == [] || value == [] {
        return ValidationError;
      }
      var hash := SimpleHash(key);
      var index := hash % Size;
      var entry := key + [Arrow] + value;
      slots[index] := Some(entry);
      feedback := Inserted(index, entry);
    }

    method SimulateSearch(rawKey: Text) returns (feedback: Feedback)
      requires Valid()
      ensures feedback == Search(slots[..], rawKey)
    {
      var key := Trim(rawKey);
      if key == [] {
        return ValidationError;
      }
      var hash := SimpleHash(key);
      var index := hash % Size;
      var value := slots[index];
      if value.Some? && value.value != [] && StartsWith(value.value, key) {
        feedback := Found(index, value.value);
      } else {
        feedback := NotFound(key);
      }
    }

    method SimulateDelete(rawKey: Text) returns (feedback: Feedback)
      requires Valid()
      modifies slots
      ensures Valid()
      ensures Outcome(feedback, slots[..]) == Delete(old(slots[..]), rawKey)
    {
      var key := Trim(rawKey);
      if key == [] {
        return ValidationError;
      }
      var hash := SimpleHash(key);
      var index := hash % Size;
      if slots[index].Some? && slots[index].value != [] && StartsWith(slots[index].value, key) {
        slots[index] := None;
        feedback := Deleted(index, key);
      } else {
        feedback := NotFound(key);
      }
    }
  }
}
