/** Concrete runs of the demo on literal keys, worked out through the model. */
module DemoScenarios {
  import opened JsNumber
  import opened JsString
  import opened StringHash
  import opened HashDemo

  const A: Text := [0x61]                          // "a"
  const F: Text := [0x66]                          // "f"
  const AD: Text := [0x61, 0x64]                   // "ad"
  const One: Text := [0x31]                        // "1"
  const Two: Text := [0x32]                        // "2"
  const Apple: Text := [0x61, 0x70, 0x70, 0x6C, 0x65]  // "apple"
  const Red: Text := [0x72, 0x65, 0x64]            // "red"
  /** "H[EZG_", a key whose accumulator ends at -2^31. */
  const MinKey: Text := [0x48, 0x5B, 0x45, 0x5A, 0x47, 0x5F]

  /** hash("apple") is 93029210, so "apple" goes to slot 0. */
  lemma {:induction false} AppleHash()
    ensures Hash(Apple) == 93029210
    ensures SlotIndex(Apple) == 0
  {
    assert Apple[..0] == [] && Apple[..5] == Apple;
    AccumulatorPrefix(Apple, 1);
    AccumulatorPrefix(Apple, 2);
    AccumulatorPrefix(Apple, 3);
    AccumulatorPrefix(Apple, 4);
    AccumulatorPrefix(Apple, 5);
  }

  /** The small keys of the collision and prefix runs all land in slot 2. */
  lemma {:induction false} SmallKeysShareSlot2()
    ensures SlotIndex(A) == 2 && SlotIndex(F) == 2 && SlotIndex(AD) == 2
  {
    assert A[..0] == [] && F[..0] == [] && A[..1] == A && F[..1] == F;
    assert AD[..1] == A && AD[..2] == AD;
    AccumulatorPrefix(A, 1);
    AccumulatorPrefix(F, 1);
    AccumulatorPrefix(AD, 2);
  }

  /** insert("apple", "red") fills slot 0 with "apple→red"; the search finds it
      there; delete removes it, giving back the empty table; a second search
      misses. */
  lemma {:induction false} AppleScenario()
    ensures Insert(EmptyTable(), Apple, Red) ==
      Outcome(Inserted(0, Entry(Apple, Red)), [Some(Entry(Apple, Red)), None, None, None, None])
    ensures Search(Insert(EmptyTable(), Apple, Red).table, Apple) == Found(0, Entry(Apple, Red))
    ensures Delete(Insert(EmptyTable(), Apple, Red).table, Apple) == Outcome(Deleted(0, Apple), EmptyTable())
    ensures Search(EmptyTable(), Apple) == NotFound(Apple)
  {
    TrimKeeps(Apple);
    TrimKeeps(Red);
    AppleHash();
    var ins := Insert(EmptyTable(), Apple, Red);
    assert ins.feedback == Inserted(0, Entry(Apple, Red));
    assert ins.table == EmptyTable()[0 := Some(Entry(Apple, Red))];
    InsertThenSearch(EmptyTable(), Apple, Red);
    InsertThenDelete(EmptyTable(), Apple, Red);
    assert EmptyTable()[0 := None] == EmptyTable();
  }

  /** "a" and "f" share slot 2, so insert("a", "1") then insert("f", "2") leaves
      only "f→2" there and a search for "a" no longer finds anything. */
  lemma {:induction false} CollisionScenario()
    ensures Insert(Insert(EmptyTable(), A, One).table, F, Two).table == [None, None, Some(Entry(F, Two)), None, None]
    ensures Search(Insert(Insert(EmptyTable(), A, One).table, F, Two).table, A) == NotFound(A)
  {
    TrimKeeps(A);
    TrimKeeps(F);
    TrimKeeps(One);
    TrimKeeps(Two);
    SmallKeysShareSlot2();
    LaterInsertOverwrites(EmptyTable(), A, One, F, Two);
    var t := Insert(EmptyTable(), F, Two).table;
    assert t == EmptyTable()[2 := Some(Entry(F, Two))];
    assert !StartsWith(Entry(F, Two), A);
  }

  /** The prefix test at work: after insert("ad", "1"), which lands in slot 2, a
      search for "a" (also slot 2) reports "ad→1" as found, and delete("a")
      removes it, although "a" was never inserted. */
  lemma {:induction false} PrefixScenario()
    ensures Search(Insert(EmptyTable(), AD, One).table, A) == Found(2, Entry(AD, One))
    ensures Delete(Insert(EmptyTable(), AD, One).table, A) == Outcome(Deleted(2, A), EmptyTable())
  {
    TrimKeeps(A);
    TrimKeeps(AD);
    TrimKeeps(One);
    SmallKeysShareSlot2();
    var t := Insert(EmptyTable(), AD, One).table;
    assert t == EmptyTable()[2 := Some(Entry(AD, One))];
    assert StartsWith(Entry(AD, One), A);
    assert t[2 := None] == EmptyTable();
  }

  /** `Math.abs` of the accumulator can reach 2^31: the hash of "H[EZG_" is
      2147483648, which lands in slot 3. */
  lemma {:induction false} HashReachesTwo31()
    ensures Accumulator(MinKey) == -Two31
    ensures Hash(MinKey) == Two31
    ensures SlotIndex(MinKey) == 3
  {
    assert MinKey[..0] == [] && MinKey[..6] == MinKey;
    assert Polynomial(MinKey[..1]) == 72 by { assert MinKey[..1][..0] == MinKey[..0]; }
    assert Polynomial(MinKey[..2]) == 2323 by { assert MinKey[..2][..1] == MinKey[..1]; }
    assert Polynomial(MinKey[..3]) == 72082 by { assert MinKey[..3][..2] == MinKey[..2]; }
    assert Polynomial(MinKey[..4]) == 2234632 by { assert MinKey[..4][..3] == MinKey[..3]; }
    assert Polynomial(MinKey[..5]) == 69273663 by { assert MinKey[..5][..4] == MinKey[..4]; }
    assert Polynomial(MinKey) == Two31 by { assert MinKey[..5] == MinKey[..6][..5]; }
    AccumulatorIsWrappedPolynomial(MinKey);
  }
}
