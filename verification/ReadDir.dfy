/** Packing directory entries into a buffer: pointers grow from the front, names from the back. */
module ReadDir {
  import opened Bytes
  import opened Decoder

  type Name = seq<byte>

  /** Bytes the names take with their terminating zeros. */
  function TextSize(names: seq<Name>): (n: nat)
    ensures n >= |names|
  {
    if names == [] then 0 else TextSize(names[..|names| - 1]) + |names[|names| - 1]| + 1
  }

  /** `buf_required`: a pointer and the text for each entry, and the final null pointer. */
  function Required(names: seq<Name>): nat {
    4 + 4 * |names| + TextSize(names)
  }

  /** Where the k-th saved name starts in a buffer of `len` bytes. */
  function NameAt(names: seq<Name>, k: nat, len: nat): int
    requires k < |names|
  {
    len - TextSize(names[..k + 1])
  }

  /** The entries that are saved: each that still fits beside what has been used. */
  function Saved(names: seq<Name>, len: nat): (r: seq<Name>)
    ensures |r| <= |names|
    ensures 4 * |r| + TextSize(r) <= len || r == []
  {
    if names == [] then []
    else
      var before := Saved(names[..|names| - 1], len);
      var last := names[|names| - 1];
      var more := before + [last];
      assert more[..|more| - 1] == before;
      if 4 * |before| + TextSize(before) + |last| + 5 <= len then more else before
  }

  lemma {:induction false} TextSizeMonotone(names: seq<Name>, i: nat, k: nat)
    requires i <= k <= |names|
    ensures TextSize(names[..i]) <= TextSize(names[..k])
    decreases k - i
  {
    if i < k {
      TextSizeMonotone(names, i, k - 1);
      assert names[..k][..k - 1] == names[..k - 1];
    }
  }

  /** With at least the required size, every entry is saved. */
  lemma {:induction false} RoomForAll(names: seq<Name>, k: nat, len: nat)
    requires k <= |names| && len >= Required(names)
    ensures Saved(names[..k], len) == names[..k] && 4 * k + TextSize(names[..k]) + 4 <= len
  {
    TextSizeMonotone(names, k, |names|);
    assert names[..|names|] == names;
    if k > 0 {
      RoomForAll(names, k - 1, len);
      assert names[..k][..k - 1] == names[..k - 1];
      assert names[..k - 1] + [names[k - 1]] == names[..k];
    }
  }

  /**
   * All entries are saved exactly when the buffer has the required size less four: the reported size adds the null
   * pointer.
   */
  lemma {:induction false} AllSavedIff(names: seq<Name>, len: nat)
    ensures Saved(names, len) == names <==> names == [] || len >= Required(names) - 4
  {
    if names != [] {
      var front := names[..|names| - 1];
      AllSavedIff(front, len);
      assert names == front + [names[|names| - 1]];
      if Saved(names, len) == names {
        assert Saved(front, len) == front;
      }
    }
  }

  /** The saved names in the buffer at `base`: pointers in order, a null after them, each at its name. */
  ghost predicate Packed(s: seq<byte>, base: nat, len: nat, names: seq<Name>) {
    && (forall k :: 0 <= k < |names| ==> NameAt(names, k, len) >= 0)
    && (forall k :: 0 <= k < |names| ==> Entry(s, base, len, names, k))
    && (names != [] ==> Holds(s, base + 4 * |names|, ToLE(0, 4)))
  }

  ghost predicate Entry(s: seq<byte>, base: nat, len: nat, names: seq<Name>, k: nat)
    requires k < |names| && NameAt(names, k, len) >= 0
  {
    && Holds(s, base + 4 * k, ToLE(base + NameAt(names, k, len), 4))
    && Holds(s, base + NameAt(names, k, len), names[k] + [0])
  }

  /** Three disjoint writes leave other bytes alone. */
  lemma Untouched(s: seq<byte>, at: nat, t: seq<byte>, at1: nat, t1: seq<byte>, at2: nat, t2: seq<byte>, from: nat,
                  u: seq<byte>)
    requires at + |t| <= |s| && at1 + |t1| <= |s| && at2 + |t2| <= |s| && Holds(s, from, u)
    requires from + |u| <= at || at + |t| <= from
    requires from + |u| <= at1 || at1 + |t1| <= from
    requires from + |u| <= at2 || at2 + |t2| <= from
    ensures Holds(Splice(Splice(Splice(s, at, t), at1, t1), at2, t2), from, u)
  {
    hide Splice, Holds;
    HoldsElsewhere(s, at, t, from, u);
    HoldsElsewhere(Splice(s, at, t), at1, t1, from, u);
    HoldsElsewhere(Splice(Splice(s, at, t), at1, t1), at2, t2, from, u);
  }

  /** Where a further name goes: right below the text saved so far. */
  function Place(names: seq<Name>, name: Name, len: nat): int {
    len - TextSize(names) - |name| - 1
  }

  /** There is room for one more entry, though not always for the null pointer after it. */
  predicate Fits(names: seq<Name>, name: Name, len: int) {
    4 * |names| + TextSize(names) + |name| + 5 <= len
  }

  /** Memory once an entry is saved: its text, its pointer, then the null pointer that ends the array for now. */
  function AfterSaving(s: seq<byte>, base: nat, len: nat, names: seq<Name>, name: Name): (r: seq<byte>)
    requires Fits(names, name, len) && base + len <= |s| && base + 4 * |names| + 8 <= |s|
    ensures |r| == |s|
  {
    var at := base + Place(names, name, len);
    var s1 := Splice(s, at, name + [0]);
    var s2 := Splice(s1, base + 4 * |names|, ToLE(at, 4));
    Splice(s2, base + 4 * |names| + 4, ToLE(0, 4))
  }

  /** An entry already there stays intact when one more is saved with room for the null pointer. */
  lemma OldEntry(s: seq<byte>, base: nat, len: nat, names: seq<Name>, name: Name, k: nat)
    requires Packed(s, base, len, names) && base + len <= |s| && k < |names|
    requires Fits(names, name, len - 4)
    ensures NameAt(names + [name], k, len) >= 0
    ensures Entry(AfterSaving(s, base, len, names, name), base, len, names + [name], k)
  {
    hide ToLE, Splice, Holds;
    var n := |names|;
    var at := base + Place(names, name, len);
    assert (names + [name])[..k + 1] == names[..k + 1] && names[..k + 1][..k] == names[..k] && names[..n] == names;
    TextSizeMonotone(names, k + 1, n);
    var where, text, ptr := NameAt(names, k, len), names[k] + [0], ToLE(base + NameAt(names, k, len), 4);
    assert Entry(s, base, len, names, k);
    assert TextSize(names[..k + 1]) == TextSize(names[..k]) + |text|;
    assert base + where + |text| <= |s|;
    Untouched(s, at, name + [0], base + 4 * n, ToLE(at, 4), base + 4 * n + 4, ToLE(0, 4), base + 4 * k, ptr);
    Untouched(s, at, name + [0], base + 4 * n, ToLE(at, 4), base + 4 * n + 4, ToLE(0, 4), base + where, text);
  }

  /** The entry being saved is intact afterwards. */
  lemma NewEntry(s: seq<byte>, base: nat, len: nat, names: seq<Name>, name: Name)
    requires base + len <= |s| && Fits(names, name, len - 4)
    ensures NameAt(names + [name], |names|, len) >= 0
    ensures var r := AfterSaving(s, base, len, names, name);
            Entry(r, base, len, names + [name], |names|) && Holds(r, base + 4 * |names| + 4, ToLE(0, 4))
  {
    hide ToLE, Splice, Holds;
    var n, more := |names|, names + [name];
    var at := base + Place(names, name, len);
    var s1 := Splice(s, at, name + [0]);
    var s2 := Splice(s1, base + 4 * n, ToLE(at, 4));
    assert more[..n] == names && more[..n + 1] == more;
    HoldsSpliced(s, at, name + [0]);
    HoldsElsewhere(s1, base + 4 * n, ToLE(at, 4), at, name + [0]);
    HoldsElsewhere(s2, base + 4 * n + 4, ToLE(0, 4), at, name + [0]);
    HoldsSpliced(s1, base + 4 * n, ToLE(at, 4));
    HoldsElsewhere(s2, base + 4 * n + 4, ToLE(0, 4), base + 4 * n, ToLE(at, 4));
    HoldsSpliced(s2, base + 4 * n + 4, ToLE(0, 4));
  }

  /** Saving an entry with room for the null pointer keeps the buffer packed. */
  lemma PackedStep(s: seq<byte>, base: nat, len: nat, names: seq<Name>, name: Name)
    requires Packed(s, base, len, names) && base + len <= |s| && Fits(names, name, len - 4)
    ensures Packed(AfterSaving(s, base, len, names, name), base, len, names + [name])
  {
    hide ToLE, Holds, AfterSaving, Entry;
    forall k | 0 <= k < |names| + 1
      ensures NameAt(names + [name], k, len) >= 0
      ensures Entry(AfterSaving(s, base, len, names, name), base, len, names + [name], k)
    {
      if k < |names| {
        OldEntry(s, base, len, names, name, k);
      } else {
        NewEntry(s, base, len, names, name);
      }
    }
    NewEntry(s, base, len, names, name);
  }

  /** Bytes taken by saved entries and the null pointer after them. */
  function Used(saved: seq<Name>): nat {
    4 * |saved| + 4 + TextSize(saved)
  }

  // ---- What a buffer without room for the null pointer loses

  /** What `readdir` yields: no empty name, and no zero byte in one. */
  predicate FileName(name: Name) {
    name != [] && 0 !in name
  }

  predicate AllFileNames(names: seq<Name>) {
    forall k :: 0 <= k < |names| ==> FileName(names[k])
  }

  /** In a packed buffer without room for the null pointer, that pointer and the last name share a byte. */
  lemma NullOverName(s: seq<byte>, base: nat, len: nat, saved: seq<Name>)
    requires saved != [] && 4 * |saved| + TextSize(saved) <= len < Used(saved) && saved[|saved| - 1] != []
    requires Packed(s, base, len, saved)
    ensures saved[|saved| - 1][0] == 0
  {
    hide TextSize, ToLE, Holds;
    var n := |saved| - 1;
    assert saved[..n + 1] == saved;
    var at := NameAt(saved, n, len);
    assert Entry(s, base, len, saved, n);
    NullByte(at - 4 * n - 4);
    HeldByte(s, base + at, saved[n] + [0], 0);
    HeldByte(s, base + 4 * n + 4, ToLE(0, 4), at - 4 * n - 4);
  }

  lemma HeldByte(s: seq<byte>, at: nat, t: seq<byte>, k: nat)
    requires Holds(s, at, t) && k < |t|
    ensures at + k < |s| && s[at + k] == t[k]
  {}

  /** So there is no such packed buffer: the null pointer falls on the last name's first byte. */
  lemma NullInName(s: seq<byte>, base: nat, len: nat, saved: seq<Name>)
    requires saved != [] && 4 * |saved| + TextSize(saved) <= len < Used(saved) && FileName(saved[|saved| - 1])
    ensures !Packed(s, base, len, saved)
  {
    var last := saved[|saved| - 1];
    assert last[0] in last;
    if Packed(s, base, len, saved) {
      NullOverName(s, base, len, saved);
    }
  }

  lemma NullByte(k: nat)
    requires k < 4
    ensures ToLE(0, 4)[k] == 0
  {
    assert ToLE(0, 4) == [0, 0, 0, 0] by {
      assert ToLE(0, 1) == [0] && ToLE(0, 2) == [0, 0] && ToLE(0, 3) == [0, 0, 0];
    }
  }

  /** A file called "a" and six bytes: it is saved, and then its name and two bytes past the buffer become zero. */
  lemma NameLost(s: seq<byte>, base: nat)
    requires base + 8 <= |s|
    ensures Saved([[97]], 6) == [[97]] && Fits([], [97], 6) && TextSize([]) == 0
    ensures var r := AfterSaving(s, base, 6, [], [97]);
            && r[base + 4..base + 8] == [0, 0, 0, 0] && Holds(r, base, ToLE(base + 4, 4))
            && !Packed(r, base, 6, [[97]])
  {
    hide ToLE, Splice, Packed;
    assert Saved([], 6) == [] && TextSize([[97]]) == 2 by {
      assert [[97 as byte]][..0] == [];
    }
    var r := AfterSaving(s, base, 6, [], [97]);
    var s1 := Splice(s, base + 4, [97] + [0]);
    var s2 := Splice(s1, base, ToLE(base + 4, 4));
    assert r == Splice(s2, base + 4, ToLE(0, 4));
    HoldsSpliced(s1, base, ToLE(base + 4, 4));
    HoldsElsewhere(s2, base + 4, ToLE(0, 4), base, ToLE(base + 4, 4));
    SpliceReads(s2, base + 4, ToLE(0, 4), base + 4, 4);
    forall k | 0 <= k < 4
      ensures ToLE(0, 4)[k] == 0
    {
      NullByte(k);
    }
    assert r[base + 4..base + 8] == ToLE(0, 4) == [0, 0, 0, 0];
    NullInName(r, base, 6, [[97]]);
  }

  /** Outside the buffer nothing changes, but for the part of the last null pointer that lies past its end. */
  ghost predicate Around(before: seq<byte>, after: seq<byte>, base: nat, len: nat, saved: seq<Name>) {
    |before| == |after|
    && forall k :: 0 <= k < |after| && !(base <= k < base + len) ==>
         after[k] == if saved != [] && base + len <= k < base + 4 * |saved| + 4 then 0 else before[k]
  }

  lemma SplicedByte(s: seq<byte>, at: nat, t: seq<byte>, k: nat)
    requires at + |t| <= |s| && k < |s|
    ensures Splice(s, at, t)[k] == if at <= k < at + |t| then t[k - at] else s[k]
  {}

  lemma AroundStep(before: seq<byte>, s: seq<byte>, base: nat, len: nat, names: seq<Name>, name: Name)
    requires Around(before, s, base, len, names) && Fits(names, name, len)
    requires base + len <= |s| && base + 4 * |names| + 8 <= |s|
    ensures Around(before, AfterSaving(s, base, len, names, name), base, len, names + [name])
  {
    hide ToLE, Splice, TextSize;
    var (n, r) := (|names|, AfterSaving(s, base, len, names, name));
    var at := base + Place(names, name, len);
    var s1 := Splice(s, at, name + [0]);
    var s2 := Splice(s1, base + 4 * n, ToLE(at, 4));
    forall k | 0 <= k < |s| && !(base <= k < base + len)
      ensures r[k] == if base + len <= k < base + 4 * n + 8 then 0 else before[k]
    {
      SplicedByte(s, at, name + [0], k);
      SplicedByte(s1, base + 4 * n, ToLE(at, 4), k);
      SplicedByte(s2, base + 4 * n + 4, ToLE(0, 4), k);
      if base + 4 * n + 4 <= k < base + 4 * n + 8 { NullByte(k - base - 4 * n - 4); }
    }
  }

  lemma {:induction false} SavedAreNames(names: seq<Name>, len: nat, name: Name)
    ensures name in Saved(names, len) ==> name in names
  {
    if names != [] {
      SavedAreNames(names[..|names| - 1], len, name);
    }
  }

  // ---- The loop

  lemma OneMore(names: seq<Name>, i: nat, len: nat)
    requires i < |names|
    ensures Required(names[..i + 1]) == Required(names[..i]) + |names[i]| + 5
    ensures var before := Saved(names[..i], len);
            Saved(names[..i + 1], len) == if Fits(before, names[i], len) then before + [names[i]] else before
    ensures TextSize(Saved(names[..i], len) + [names[i]]) == TextSize(Saved(names[..i], len)) + |names[i]| + 1
  {
    assert names[..i + 1][..i] == names[..i];
    var more := Saved(names[..i], len) + [names[i]];
    assert more[..|more| - 1] == Saved(names[..i], len);
  }

  /** What is saved stays saved as the directory is read on. */
  lemma {:induction false} SavedGrows(names: seq<Name>, i: nat, k: nat, len: nat)
    requires i <= k <= |names|
    ensures Saved(names[..i], len) <= Saved(names[..k], len)
    decreases k - i
  {
    hide Saved, TextSize;
    if i < k {
      SavedGrows(names, i, k - 1, len);
      OneMore(names, k - 1, len);
    }
  }

  method Write(memory: array<byte>, at: nat, t: seq<byte>)
    requires at + |t| <= memory.Length
    modifies memory
    ensures memory[..] == Splice(old(memory[..]), at, t)
  {
    forall k | 0 <= k < |t| {
      memory[at + k] := t[k];
    }
  }

  /**
   * How the packing ends: at the end of the directory, with a store outside memory, or with a 32-bit sum that
   * wrapped.
   */
  datatype Stop = Finished | Wild | Wrapped

  /** All stores land in memory: nothing is saved, or the buffer and the array with its null pointer lie inside. */
  predicate Inside(memsz: nat, bufRef: nat, bufLen: nat, saved: seq<Name>) {
    saved == [] || (bufRef + bufLen <= memsz && bufRef + 4 * |saved| + 4 <= memsz)
  }

  /** Before some entry what is used and needed no longer fits in 32 bits. */
  ghost predicate Wraps(names: seq<Name>, n: nat, bufLen: nat)
    requires n <= |names|
  {
    exists i :: 0 <= i < n && SumWraps(names, i, bufLen)
  }

  predicate SumWraps(names: seq<Name>, i: nat, bufLen: nat)
    requires i < |names|
  {
    var before := Saved(names[..i], bufLen);
    4 * |before| + TextSize(before) + |names[i]| + 5 >= WORD32
  }

  /** File names are shorter than 256 bytes, so a buffer 261 bytes short of the address space never sees that. */
  lemma OrdinaryNeverWraps(names: seq<Name>, bufLen: nat)
    requires (forall k :: 0 <= k < |names| ==> |names[k]| < 256) && bufLen + 260 < WORD32
    ensures !Wraps(names, |names|, bufLen)
  {
    forall i | 0 <= i < |names|
      ensures !SumWraps(names, i, bufLen)
    {
      assert |names[i]| < 256;
    }
  }

  /** The three stores for one entry. */
  method SaveEntry(memory: array<byte>, bufRef: nat, endOfBuf: nat, savedEntries: nat, name: Name,
                   ghost bufLen: nat, ghost saved: seq<Name>)
    returns (wild: bool)
    requires Fits(saved, name, bufLen) && savedEntries == |saved| && endOfBuf == Place(saved, name, bufLen)
    requires Inside(memory.Length, bufRef, bufLen, saved)
    modifies memory
    ensures wild <==> !Inside(memory.Length, bufRef, bufLen, saved + [name])
    ensures !wild ==> memory[..] == AfterSaving(old(memory[..]), bufRef, bufLen, saved, name)
  {
    NothingTaken(saved);
    hide ToLE, Splice, TextSize;
    if bufRef + endOfBuf + |name| + 1 > memory.Length || bufRef + savedEntries * 4 + 4 > memory.Length {
      return true;
    }
    Write(memory, bufRef + endOfBuf, name + [0]);
    Write(memory, bufRef + savedEntries * 4, ToLE(bufRef + endOfBuf, 4));
    var saved1 := savedEntries + 1;
    if bufRef + saved1 * 4 + 4 > memory.Length {
      return true;
    }
    Write(memory, bufRef + saved1 * 4, ToLE(0, 4));
    return false;
  }

  lemma NothingTaken(saved: seq<Name>)
    ensures saved == [] ==> TextSize(saved) == 0
  {}

  /** The low 32 bits, as a counter keeps them. */
  function Low(n: nat): u32 {
    n % WORD32
  }

  /** Adding modulo 2^32 at each step is adding once. */
  lemma SumInWords(a: nat, b: nat)
    ensures Low(Low(a) + b) == Low(a + b)
  {
    var q := a / WORD32;
    var t := a % WORD32 + b;
    assert a + b == (q + t / WORD32) * WORD32 + t % WORD32;
    ModIsRemainder(a + b, WORD32, q + t / WORD32, t % WORD32);
  }

  /** Where the loop stands after the first `i` names. */
  ghost predicate Progress(before: seq<byte>, s: seq<byte>, bufRef: u32, bufLen: u64, names: seq<Name>, i: nat,
                           savedEntries: nat, bufUsed: nat, endOfBuf: int)
    requires i <= |names|
  {
    var saved := Saved(names[..i], bufLen);
    && savedEntries == |saved| && bufUsed == 4 * |saved| + TextSize(saved) <= bufLen
    && endOfBuf == bufLen - TextSize(saved)
    && !Wraps(names, i, bufLen) && Inside(|s|, bufRef, bufLen, saved)
    && Around(before, s, bufRef, bufLen, saved)
    && (Used(saved) <= bufLen ==> Packed(s, bufRef, bufLen, saved))
  }

  /** The loop cannot finish: an entry that is reached wraps the sum, or is stored outside memory. */
  ghost predicate Doomed(memsz: nat, bufRef: u32, bufLen: u64, names: seq<Name>) {
    Wraps(names, |names|, bufLen) || !Inside(memsz, bufRef, bufLen, Saved(names, bufLen))
  }

  lemma WildDooms(memsz: nat, bufRef: u32, bufLen: u64, names: seq<Name>, i: nat)
    requires i <= |names| && !Inside(memsz, bufRef, bufLen, Saved(names[..i], bufLen))
    ensures Doomed(memsz, bufRef, bufLen, names)
  {
    SavedGrows(names, i, |names|, bufLen);
    assert names[..|names|] == names;
  }

  lemma NoNewWrap(names: seq<Name>, i: nat, bufLen: nat)
    requires i < |names|
    ensures Wraps(names, i + 1, bufLen) <==> Wraps(names, i, bufLen) || SumWraps(names, i, bufLen)
    ensures SumWraps(names, i, bufLen) ==> Wraps(names, |names|, bufLen)
  {
    hide SumWraps;
  }

  /** One entry of the loop, the counting aside. */
  method PackEntry(memory: array<byte>, bufRef: u32, bufLen: u64, names: seq<Name>, i: nat,
                   savedEntries0: nat, bufUsed0: nat, endOfBuf0: int, ghost before: seq<byte>)
    returns (savedEntries: nat, bufUsed: nat, endOfBuf: int, stop: Stop)
    requires i < |names| && Progress(before, memory[..], bufRef, bufLen, names, i, savedEntries0, bufUsed0, endOfBuf0)
    modifies memory
    ensures stop.Finished? ==>
              Progress(before, memory[..], bufRef, bufLen, names, i + 1, savedEntries, bufUsed, endOfBuf)
    ensures !stop.Finished? ==> Doomed(memory.Length, bufRef, bufLen, names)
  {
    OneMore(names, i, bufLen);
    NoNewWrap(names, i, bufLen);
    hide Packed, Required, Saved, TextSize, AfterSaving, Inside, Wraps, Around;
    savedEntries, bufUsed, endOfBuf, stop := savedEntries0, bufUsed0, endOfBuf0, Finished;
    ghost var saved, s := Saved(names[..i], bufLen), memory[..];
    var len := |names[i]|;
    if bufUsed + len + 5 >= WORD32 {
      stop := Wrapped;
      return;
    }
    if bufUsed + len + 5 <= bufLen {
      endOfBuf := endOfBuf - (len + 1);
      assert endOfBuf > savedEntries * 4;
      var wild := SaveEntry(memory, bufRef, endOfBuf, savedEntries, names[i], bufLen, saved);
      if wild {
        WildDooms(memory.Length, bufRef, bufLen, names, i + 1);
        stop := Wild;
        return;
      }
      InsideRoom(memory.Length, bufRef, bufLen, saved + [names[i]]);
      AroundStep(before, s, bufRef, bufLen, saved, names[i]);
      if Used(saved + [names[i]]) <= bufLen {
        PackedStep(s, bufRef, bufLen, saved, names[i]);
      }
      savedEntries := savedEntries + 1;
      bufUsed := bufUsed + len + 5;
    }
  }

  lemma InsideRoom(memsz: nat, bufRef: nat, bufLen: nat, saved: seq<Name>)
    requires saved != [] && Inside(memsz, bufRef, bufLen, saved)
    ensures bufRef + bufLen <= memsz && bufRef + 4 * |saved| + 4 <= memsz
  {}

  /** The loop over the directory: the counters add up modulo 2^32. */
  method PackEach(memory: array<byte>, bufRef: u32, bufLen: u64, names: seq<Name>)
    returns (savedEntries: nat, totalEntries: nat, bufRequired: nat, bufUsed: nat, endOfBuf: int, stop: Stop)
    modifies memory
    ensures stop.Finished? ==>
              && totalEntries == Low(|names|) && bufRequired == Low(Required(names))
              && Progress(old(memory[..]), memory[..], bufRef, bufLen, names, |names|, savedEntries, bufUsed, endOfBuf)
    ensures !stop.Finished? ==> Doomed(memory.Length, bufRef, bufLen, names)
  {
    ghost var before := memory[..];
    Start(before, bufRef, bufLen, names);
    assert Low(0) == 0 && Low(4) == 4;
    hide Required, Progress, Doomed, Saved, TextSize, Fits, Packed, Low;
    savedEntries, totalEntries, bufRequired, bufUsed, endOfBuf, stop := 0, 0, 4, 0, bufLen, Finished;
    assert names[..|names|] == names;
    for i := 0 to |names|
      invariant totalEntries == Low(i) && bufRequired == Low(Required(names[..i]))
      invariant Progress(before, memory[..], bufRef, bufLen, names, i, savedEntries, bufUsed, endOfBuf)
      invariant stop.Finished?
    {
      OneMore(names, i, bufLen);
      SumInWords(Required(names[..i]), 5 + |names[i]|);
      SumInWords(i, 1);
      bufRequired := Low(bufRequired + (5 + |names[i]|));
      savedEntries, bufUsed, endOfBuf, stop :=
        PackEntry(memory, bufRef, bufLen, names, i, savedEntries, bufUsed, endOfBuf, before);
      if !stop.Finished? {
        return;
      }
      totalEntries := Low(totalEntries + 1);
    }
  }

  /**
   * The packing loop of `sys_fs_readdir`, over the names the directory yields, for any buffer that passed the check:
   * the length is truncated to 32 bits there, and the sum computed in 32. The loop finishes exactly when no sum wraps
   * and the stores land in memory, and then its assertion has held throughout. The buffer is then packed with exactly
   * the entries saved if and only if these leave room for the null pointer, or there are none; with at least the size
   * required they are all entries. Outside the buffer only the end of a null pointer without room is written.
   */
  method Pack(memory: array<byte>, bufRef: u32, bufLen: u64, names: seq<Name>)
    returns (savedEntries: nat, totalEntries: nat, bufRequired: nat, stop: Stop)
    requires memory.Length < WORD32 && (bufLen > 0 ==> DerefOk(bufRef, bufLen % WORD32, memory.Length))
    modifies memory
    ensures var saved := Saved(names, bufLen);
            && (stop.Finished? <==> !Wraps(names, |names|, bufLen) && Inside(memory.Length, bufRef, bufLen, saved))
            && (stop.Finished? ==> bufRequired == Required(names) % WORD32
                                   && totalEntries == |names| % WORD32 && savedEntries == |saved|)
            && (stop.Finished? && Used(saved) <= bufLen ==> Packed(memory[..], bufRef, bufLen, saved))
            && (stop.Finished? && AllFileNames(names) ==>
                  (Packed(memory[..], bufRef, bufLen, saved) <==> saved == [] || Used(saved) <= bufLen))
            && (stop.Finished? ==> Around(old(memory[..]), memory[..], bufRef, bufLen, saved))
    ensures bufLen >= Required(names) ==> Saved(names, bufLen) == names && Used(names) <= bufLen
  {
    RoomMeansAll(names, bufLen);
    hide Packed, Required, Saved, Progress, Inside, Wraps, Around, Used, AllFileNames, Doomed;
    ghost var before := memory[..];
    var bufUsed, endOfBuf;
    savedEntries, totalEntries, bufRequired, bufUsed, endOfBuf, stop := PackEach(memory, bufRef, bufLen, names);
    if stop.Finished? {
      Complete(before, memory[..], bufRef, bufLen, names, savedEntries, bufUsed, endOfBuf);
    } else {
      DoomedOutcome(memory.Length, bufRef, bufLen, names);
    }
  }

  lemma RoomMeansAll(names: seq<Name>, bufLen: nat)
    ensures bufLen >= Required(names) ==> Saved(names, bufLen) == names && Used(names) <= bufLen
  {
    if bufLen >= Required(names) {
      RoomForAll(names, |names|, bufLen);
      assert names[..|names|] == names;
    }
  }

  lemma DoomedOutcome(memsz: nat, bufRef: u32, bufLen: u64, names: seq<Name>)
    ensures Doomed(memsz, bufRef, bufLen, names)
            <==> Wraps(names, |names|, bufLen) || !Inside(memsz, bufRef, bufLen, Saved(names, bufLen))
  {}

  lemma Start(s: seq<byte>, bufRef: u32, bufLen: u64, names: seq<Name>)
    ensures names[..0] == [] && Required([]) == 4
    ensures Progress(s, s, bufRef, bufLen, names, 0, 0, 0, bufLen)
  {
    assert names[..0] == [];
  }

  lemma Complete(before: seq<byte>, s: seq<byte>, bufRef: u32, bufLen: u64, names: seq<Name>, savedEntries: nat,
                 bufUsed: nat, endOfBuf: int)
    requires Progress(before, s, bufRef, bufLen, names, |names|, savedEntries, bufUsed, endOfBuf)
    ensures var saved := Saved(names, bufLen);
            && savedEntries == |saved| && !Wraps(names, |names|, bufLen) && Inside(|s|, bufRef, bufLen, saved)
            && Around(before, s, bufRef, bufLen, saved)
            && (Used(saved) <= bufLen ==> Packed(s, bufRef, bufLen, saved))
            && (AllFileNames(names) ==>
                  (Packed(s, bufRef, bufLen, saved) <==> saved == [] || Used(saved) <= bufLen))
  {
    hide Packed, Around, Inside, Wraps, TextSize, FileName;
    var saved := Saved(names, bufLen);
    assert names[..|names|] == names;
    NothingPacked(s, bufRef, bufLen);
    if AllFileNames(names) && saved != [] && Used(saved) > bufLen {
      SavedAreNames(names, bufLen, saved[|saved| - 1]);
      assert saved[|saved| - 1] in saved;
      NullInName(s, bufRef, bufLen, saved);
    }
  }

  lemma NothingPacked(s: seq<byte>, base: nat, len: nat)
    ensures Packed(s, base, len, [])
  {}
}
