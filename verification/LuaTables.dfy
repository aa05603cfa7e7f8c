/**
  Lua tables: an array part for the keys 1..n and a hash part for all other keys. No
  metatables.
 */
module LuaTables {

  // ---- Keys and values ----

  datatype Value = Nil | Some(id: nat)

  /** A float64 that is a whole number, one that is not (fractions and infinities), or NaN. */
  datatype Float = Whole(i: int) | Fraction(id: nat) | NaN

  datatype Key = NilKey | Num(f: Float) | Str(s: string) | Other(id: nat)

  const TWO_53 := 0x20_0000_0000_0000
  const TWO_63 := 0x8000_0000_0000_0000
  const TWO_64 := 0x1_0000_0000_0000_0000

  predicate IsInt64(i: int) {
    -TWO_63 <= i < TWO_63
  }

  /** 64-bit two's complement. */
  function Wrap(i: int): (r: int)
    ensures IsInt64(r)
    ensures IsInt64(i) ==> r == i
    ensures TWO_63 <= i < TWO_64 ==> r == i - TWO_64
  {
    (i + TWO_63) % TWO_64 - TWO_63
  }

  /** Go's integer division truncates. */
  function Half(i: int): int {
    if i >= 0 then i / 2 else -(-i / 2)
  }

  /** The distance of two neighbouring float64 values around k. */
  function Ulp(k: nat): (u: nat)
    ensures u > 0
  {
    if k < TWO_53 then 1 else 2 * Ulp(k / 2)
  }

  /** Conversion to float64: to nearest, ties to even. */
  function RoundNat(k: nat): nat {
    var u := Ulp(k);
    var q, r := k / u, k % u;
    if 2 * r < u || (2 * r == u && q % 2 == 0) then q * u else (q + 1) * u
  }

  function Round(k: int): (r: int)
    ensures -TWO_53 < k < TWO_53 ==> r == k
  {
    if k >= 0 then RoundNat(k) else -(RoundNat(-k) as int)
  }

  /** The key that the integer k is looked up under. */
  function IntKey(k: int): Key {
    Num(Whole(Round(k)))
  }

  /** A whole number that float64 has. */
  predicate Proper(k: Key) {
    k.Num? && k.f.Whole? ==> Round(k.f.i) == k.f.i
  }

  /** int(f) converts back to f. */
  predicate IsInt(k: Key) {
    k.Num? && k.f.Whole? && IsInt64(k.f.i)
  }

  /** The midpoint of the bisection, with and without wrap-around. */
  lemma Midpoint(i: nat, j: nat)
    requires i < j < TWO_63 && j - i > 1
    ensures var m := Half(Wrap(i + j));
            if i + j < TWO_63 then m == (i + j) / 2 && i < m < j
            else m == Half(i + j - TWO_64) && m < 0 && Wrap(m - i) <= 1 && Wrap(j - m) <= 1
  {
    if i + j >= TWO_63 {
      var m := Half(i + j - TWO_64);
      assert j - m >= TWO_63;
      assert IsInt64(m - i);
    }
  }

  // ---- What a table stands for: a partial map ----

  function Get(m: map<Key, Value>, k: Key): Value {
    if k in m then m[k] else Nil
  }

  /** Assigning nil removes the key. */
  function Put(m: map<Key, Value>, k: Key, v: Value): map<Key, Value> {
    if v == Nil then m - {k} else m[k := v]
  }

  /** A list constructor assigns the keys start + 1, start + 2, ... */
  function PutList(m: map<Key, Value>, start: nat, vs: seq<Value>): map<Key, Value>
    decreases |vs|
  {
    if vs == [] then m
    else Put(PutList(m, start, vs[..|vs| - 1]), Num(Whole(start + |vs|)), vs[|vs| - 1])
  }

  // ---- The two parts ----

  predicate InArray(n: nat, k: Key) {
    k.Num? && k.f.Whole? && 1 <= k.f.i <= n
  }

  function Lookup(slots: seq<Value>, hash: map<Key, Value>, k: Key): Value {
    if InArray(|slots|, k) then slots[k.f.i - 1] else Get(hash, k)
  }

  /** The hash part has no key of the array's range, no nil, and no key that cannot be one. */
  predicate Separate(n: nat, hash: map<Key, Value>) {
    forall k :: k in hash ==> !InArray(n, k) && hash[k] != Nil && k != NilKey && k != Num(NaN)
  }

  ghost function Merged(slots: seq<Value>, hash: map<Key, Value>): map<Key, Value> {
    map k | k in hash.Keys + (set i | 1 <= i <= |slots| :: Num(Whole(i))) && Lookup(slots, hash, k) != Nil
      :: Lookup(slots, hash, k)
  }

  lemma MergedAt(slots: seq<Value>, hash: map<Key, Value>, k: Key)
    requires Separate(|slots|, hash)
    ensures Get(Merged(slots, hash), k) == Lookup(slots, hash, k)
    ensures k in Merged(slots, hash) <==> Lookup(slots, hash, k) != Nil
  {
    if InArray(|slots|, k) {
      assert k == Num(Whole(k.f.i));
    }
  }

  /** A map that answers every lookup as the two parts do is what they stand for. */
  lemma MergedIs(slots: seq<Value>, hash: map<Key, Value>, m: map<Key, Value>)
    requires Separate(|slots|, hash)
    requires forall k :: Get(m, k) == Lookup(slots, hash, k)
    requires forall k :: k in m ==> m[k] != Nil
    ensures Merged(slots, hash) == m
  {
    forall k ensures k in Merged(slots, hash) <==> k in m {
      MergedAt(slots, hash, k);
      assert Get(m, k) == Lookup(slots, hash, k);
    }
    forall k | k in m ensures Merged(slots, hash)[k] == m[k] {
      MergedAt(slots, hash, k);
      assert Get(m, k) == Lookup(slots, hash, k);
    }
  }

  lemma PutInto(slots: seq<Value>, hash: map<Key, Value>, k: Key, v: Value, slots': seq<Value>, hash': map<Key, Value>)
    requires Separate(|slots|, hash) && Separate(|slots'|, hash')
    requires forall q :: Lookup(slots', hash', q) == if q == k then v else Lookup(slots, hash, q)
    ensures Merged(slots', hash') == Put(Merged(slots, hash), k, v)
  {
    var m := Merged(slots, hash);
    forall q ensures Get(Put(m, k, v), q) == Lookup(slots', hash', q) {
      MergedAt(slots, hash, q);
    }
    MergedIs(slots', hash', Put(m, k, v));
  }

  function Max(a: nat, b: nat): nat {
    if a > b then a else b
  }

  class Table {
    var slots: seq<Value>
    var hash: map<Key, Value>

    ghost predicate Valid()
      reads this
    {
      |slots| < TWO_63 && Separate(|slots|, hash)
    }

    /** The table as one partial map. */
    ghost function Contents(): map<Key, Value>
      reads this
    {
      Merged(slots, hash)
    }

    /** newTableWithSize. */
    constructor (arraySize: nat)
      requires arraySize < TWO_63
      ensures Valid() && Contents() == map[] && hash == map[] && slots == seq(arraySize, _ => Nil)
    {
      slots := seq(arraySize, _ => Nil);
      hash := map[];
      new;
      MergedIs(slots, hash, map[]);
    }

    function AtInt(k: int): Value
      reads this
    {
      if 0 < k <= |slots| then slots[k - 1] else Get(hash, IntKey(k))
    }

    /** at: every lookup is answered by the map. */
    method At(k: Key) returns (v: Value)
      requires Valid()
      ensures v == Get(Contents(), k)
    {
      MergedAt(slots, hash, k);
      if k == NilKey {
        v := Nil;
      } else if IsInt(k) && 0 < k.f.i <= |slots| {
        v := slots[k.f.i - 1];
      } else {
        v := Get(hash, k);
      }
    }

    /** extendArray: moving entries from the hash part to the array part loses nothing. The
        order in which the entries of the hash part come is arbitrary. */
    method ExtendArray(last: nat)
      requires Valid() && |slots| <= last < TWO_63
      modifies this
      ensures Valid() && Contents() == old(Contents())
      ensures |slots| == last
    {
      slots := slots + seq(last - |slots|, _ => Nil);
      hide Halfway, Lookup;
      RoomAdded(old(slots), slots, hash);
      var todo := hash.Keys;
      while todo != {}
        invariant |slots| == last && todo <= hash.Keys && hash.Keys <= old(hash).Keys
        invariant forall k :: k in hash ==> hash[k] == old(hash)[k] && (InArray(last, k) ==> k in todo)
        invariant forall k :: Halfway(slots, hash, k) == Lookup(old(slots), old(hash), k)
        decreases |todo|
      {
        var k :| k in todo;
        todo := todo - {k};
        if IsInt(k) && 0 < k.f.i <= |slots| {
          KeyMoved(slots, hash, k);
          slots, hash := slots[k.f.i - 1 := hash[k]], hash - {k};
        }
      }
      SameContents(old(slots), old(hash), slots, hash);
    }

    /** maybeResizeArray: the array part grows to the key if it would then be half full. */
    method MaybeResizeArray(key: nat) returns (resized: bool)
      requires Valid() && |slots| < key < TWO_63 && 2 * (|slots| + |hash|) < TWO_63
      modifies this
      ensures Valid() && Contents() == old(Contents())
      ensures resized == (NonNil(old(slots)) + |IntKeysUpTo(old(hash), key)| >= key / 2)
      ensures if resized then |slots| >= key else slots == old(slots) && hash == old(hash)
    {
      var inArray := CountArray();
      var inHash := CountHash(key);
      var occupancy := inArray + inHash;
      resized := occupancy >= key / 2;
      if resized {
        ExtendArray(Max(occupancy * 2, key));
      }
    }

    method CountArray() returns (n: nat)
      ensures n == NonNil(slots) <= |slots|
    {
      n := 0;
      for i := 0 to |slots|
        invariant n == NonNil(slots[..i]) <= i
      {
        assert slots[..i + 1][..i] == slots[..i];
        if slots[i] != Nil {
          n := n + 1;
        }
      }
      assert slots[..|slots|] == slots;
    }

    method CountHash(key: nat) returns (n: nat)
      requires Valid()
      ensures n == |IntKeysUpTo(hash, key)| <= |hash|
    {
      assert forall k :: k in hash ==> hash[k] != Nil;
      hide Valid;
      ghost var keys := IntKeysUpTo(hash, key);
      n := 0;
      var todo := hash.Keys;
      assert keys - todo == {};
      while todo != {}
        invariant todo <= hash.Keys && n == |keys - todo|
        decreases |todo|
      {
        var k :| k in todo;
        TakenOut(keys, todo, k);
        todo := todo - {k};
        if IsInt(k) && k.f.i <= key && hash[k] != Nil {
          n := n + 1;
        }
      }
      assert keys - todo == keys;
      SubsetSize(keys, hash.Keys);
    }

    /** putAtInt. */
    method PutAtInt(k: int, v: Value)
      requires Valid() && IsInt64(k) && |slots| + |hash| < TWO_53 / 2
      modifies this
      ensures Valid() && Contents() == Put(old(Contents()), IntKey(k), v)
      ensures k > |old(slots)| && v != Nil && NonNil(old(slots)) + |IntKeysUpTo(old(hash), k)| < k / 2 ==>
        slots == old(slots) && hash == old(hash)[IntKey(k) := v]
    {
      if 0 < k <= |slots| {
        slots := slots[k - 1 := v];
        PutInto(old(slots), old(hash), IntKey(k), v, slots, hash);
        return;
      }
      if k > 0 && v != Nil {
        var resized := MaybeResizeArray(k);
        if resized {
          NonNilSize(old(slots));
          SubsetSize(IntKeysUpTo(old(hash), k), old(hash).Keys);
          ghost var before := slots;
          slots := slots[k - 1 := v];
          PutInto(before, hash, IntKey(k), v, slots, hash);
          return;
        }
      }
      RoundOutside(k, |slots|);
      if v == Nil {
        hash := hash - {IntKey(k)};
      } else {
        hash := hash[IntKey(k) := v];
      }
      PutInto(old(slots), old(hash), IntKey(k), v, slots, hash);
    }

    /** put: an error for the two keys that are not allowed, else an update of the map. */
    method PutKey(k: Key, v: Value) returns (ok: bool)
      requires Valid() && Proper(k) && |slots| + |hash| < TWO_53 / 2
      modifies this
      ensures Valid() && ok == (k != NilKey && k != Num(NaN))
      ensures if ok then Contents() == Put(old(Contents()), k, v) else slots == old(slots) && hash == old(hash)
    {
      if k == NilKey {
        return false;
      }
      if IsInt(k) {
        PutAtInt(k.f.i, v);
        return true;
      }
      if k == Num(NaN) {
        return false;
      }
      if v == Nil {
        hash := hash - {k};
      } else {
        hash := hash[k := v];
      }
      PutInto(old(slots), old(hash), k, v, slots, hash);
      return true;
    }

    /** tryPut: acts as put on a key that is present, or changes nothing. */
    method TryPut(k: Key, v: Value) returns (done: bool)
      requires Valid()
      modifies this
      ensures Valid()
      ensures done == (k in old(Contents()) && (v != Nil || InArray(|old(slots)|, k)))
      ensures if done then Contents() == Put(old(Contents()), k, v) else slots == old(slots) && hash == old(hash)
    {
      MergedAt(slots, hash, k);
      if k == NilKey {
        return false;
      }
      if IsInt(k) && 0 < k.f.i <= |slots| && slots[k.f.i - 1] != Nil {
        slots := slots[k.f.i - 1 := v];
        PutInto(old(slots), old(hash), k, v, slots, hash);
        return true;
      }
      if k == Num(NaN) {
        return false;
      }
      if Get(hash, k) != Nil && v != Nil {
        hash := hash[k := v];
        PutInto(old(slots), old(hash), k, v, slots, hash);
        return true;
      }
      return false;
    }

    /** opSetList copies into the array part: as putting the values one by one. */
    method SetList(start: nat, vs: seq<Value>)
      requires Valid() && start + |vs| < TWO_63
      modifies this
      ensures Valid() && Contents() == PutList(old(Contents()), start, vs)
      ensures start + |vs| <= |old(slots)| ==> hash == old(hash) && slots == old(slots)[..start] + vs + old(slots)[start + |vs|..]
    {
      var last := start + |vs|;
      if last > |slots| {
        ExtendArray(last);
      }
      ghost var before := slots;
      slots := slots[..start] + vs + slots[last..];
      CopyPuts(before, hash, start, vs, slots);
    }

    // ---- Length ----

    /** A border: the key n is present (or n is 0), and n + 1 is not. */
    predicate Border(n: int)
      reads this
    {
      n >= 0 && (n == 0 || AtInt(n) != Nil) && AtInt(n + 1) == Nil
    }

    /** The first of j, 2j, 4j, ... that is absent or beyond the integers. */
    function FirstMiss(j: nat): (r: nat)
      reads this
      requires j > 0
      ensures r >= j
      decreases TWO_63 - j
    {
      if j >= TWO_63 || AtInt(j) == Nil then j else FirstMiss(2 * j)
    }

    /** Bisection between a present and an absent key, as far as the sums are integers. */
    function Bracket(i: nat, j: nat): (r: (nat, nat))
      reads this
      requires i < j
      ensures i <= r.0 < r.1 <= j
      decreases j - i
    {
      var m := (i + j) / 2;
      if j - i == 1 || i + j >= TWO_63 then (i, j)
      else if AtInt(m) == Nil then Bracket(i, m) else Bracket(m, j)
    }

    /** The midpoint of (i, j) is taken after the sum has wrapped around, and the interval found
        so far did not end at a border. */
    predicate WrapsAt(i: nat, j: nat)
      reads this
    {
      j - i > 1 && (AtInt(i + 1) != Nil || AtInt(Half(i + j - TWO_64)) != Nil)
    }

    /** The search beyond the array part is led astray. */
    predicate Misled()
      reads this
    {
      && (|slots| == 0 || slots[|slots| - 1] != Nil)
      && var n, j := |slots|, FirstMiss(|slots| + 1);
      && j < TWO_63
      && var b := Bracket(if j == n + 1 then n else j / 2, j);
      WrapsAt(b.0, b.1)
    }

    /** The part of unboundSearch behind its first loop. */
    method Bisect(i0: nat, j0: nat) returns (n: int)
      requires i0 < j0 < TWO_63 && (i0 == 0 || AtInt(i0) != Nil) && AtInt(j0) == Nil
      ensures var b := Bracket(i0, j0); Border(n) <==> !WrapsAt(b.0, b.1)
    {
      hide Wrap, Half, Border, AtInt, Bracket;
      var i, j: int := i0, j0;
      ghost var wrapped, b := false, Bracket(i0, j0);
      while Wrap(j - i) > 1
        invariant !wrapped ==>
          && 0 <= i < j < TWO_63 && (i == 0 || AtInt(i) != Nil) && AtInt(j) == Nil
          && Bracket(i, j) == b
        // A wrapped midpoint is negative, and so is the difference that is tested next.
        invariant wrapped ==> Wrap(j - i) <= 1 && (Border(i) <==> !WrapsAt(b.0, b.1))
        decreases if wrapped then 0 else j - i
      {
        wrapped := i + j >= TWO_63;
        Midpoint(i, j);
        BracketStep(i, j);
        if wrapped {
          BorderIf(i, j);
        }
        var m := Half(Wrap(i + j));
        if AtInt(m) == Nil {
          j := m;
        } else {
          i := m;
        }
      }
      if !wrapped {
        BracketStep(i, j);
        BorderIf(i, j);
      }
      return i;
    }

    lemma BracketStep(i: nat, j: nat)
      requires i < j
      ensures var m := (i + j) / 2;
              Bracket(i, j) == if j - i == 1 || i + j >= TWO_63 then (i, j)
                               else if AtInt(m) == Nil then Bracket(i, m) else Bracket(m, j)
    {
    }

    lemma BorderIf(i: nat, j: nat)
      requires (i == 0 || AtInt(i) != Nil) && AtInt(j) == Nil
      ensures Border(i) <==> AtInt(i + 1) == Nil
      ensures forall m :: m < 0 ==> !Border(m)
    {
    }

    /** The plain search that is left when doubling leaves the integers. */
    method SearchFromOne() returns (n: int)
      requires Valid() && |slots| + |hash| < TWO_53
      ensures Border(n)
    {
      var i := 1;
      while AtInt(i) != Nil
        invariant 1 <= i && forall k :: 1 <= k < i ==> AtInt(k) != Nil
        invariant i <= |slots| + |hash| + 1
        decreases |slots| + |hash| + 1 - i
      {
        i := i + 1;
        PresentUpTo(i - 1);
      }
      return i - 1;
    }

    /** A table that has all of 1..n has at least n entries. */
    lemma PresentUpTo(n: nat)
      requires Valid() && n <= |slots| + |hash| + 1 <= TWO_53
      requires forall k :: 1 <= k <= n ==> AtInt(k) != Nil
      ensures n <= |slots| + |hash|
    {
      if n == |slots| + |hash| + 1 {
        var keys := set k | |slots| < k <= n :: Num(Whole(k));
        forall k | |slots| < k <= n ensures Num(Whole(k)) in hash {
          assert AtInt(k) != Nil;
        }
        SubsetSize(keys, hash.Keys);
        IntKeysSize(|slots|, n, keys);
      }
    }

    /** unboundSearch. */
    method UnboundSearch() returns (n: int)
      requires Valid() && |slots| + |hash| < TWO_53
      requires |slots| == 0 || slots[|slots| - 1] != Nil
      ensures Border(n) <==> !Misled()
    {
      hide Table.Valid, Table.Border, Table.Bracket, Table.WrapsAt;
      var i, j: int := |slots|, |slots| + 1;
      while AtInt(j) != Nil
        invariant 0 < j < TWO_63 && 0 <= i < j
        invariant FirstMiss(j) == FirstMiss(|slots| + 1)
        invariant i == (if j == |slots| + 1 then |slots| else j / 2) && j >= |slots| + 1
        invariant i == 0 || AtInt(i) != Nil
        decreases TWO_63 - j
      {
        i := j;
        j := Wrap(2 * j);
        if j < 0 {
          n := SearchFromOne();
          return;
        }
      }
      n := Bisect(i, j);
    }

    /** The whole-number keys are exactly 1..n. */
    ghost predicate IsSequence(n: nat)
      reads this
    {
      forall k :: k >= 1 ==> (Num(Whole(k)) in Contents() <==> k <= n)
    }

    /** Without keys from 2^61 on, no sum leaves the integers. */
    lemma NotMisled()
      requires |slots| < TWO_53 && forall k :: k >= TWO_63 / 4 ==> AtInt(k) == Nil
      ensures !Misled()
    {
      var n := |slots|;
      FirstMissBelow(n + 1);
      var j := FirstMiss(n + 1);
      if j < TWO_63 {
        BracketBelow(if j == n + 1 then n else j / 2, j);
      }
    }

    lemma {:induction false} FirstMissBelow(j: nat)
      requires 0 < j <= TWO_63 / 2 && forall k :: k >= TWO_63 / 4 ==> AtInt(k) == Nil
      ensures FirstMiss(j) <= TWO_63 / 2
      decreases TWO_63 - j
    {
      if AtInt(j) != Nil {
        FirstMissBelow(2 * j);
      }
    }

    lemma {:induction false} BracketBelow(i: nat, j: nat)
      requires i < j <= TWO_63 / 2
      ensures Bracket(i, j).1 - Bracket(i, j).0 == 1
      decreases j - i
    {
      if j - i > 1 {
        var m := (i + j) / 2;
        if AtInt(m) == Nil {
          BracketBelow(i, m);
        } else {
          BracketBelow(m, j);
        }
      }
    }

    lemma AtIntIsGet(k: int)
      requires Valid() && |slots| < TWO_53
      ensures AtInt(k) == Get(Contents(), IntKey(k))
    {
      MergedAt(slots, hash, IntKey(k));
      if !(0 < k <= |slots|) {
        RoundOutside(k, |slots|);
      }
    }

    /** The only border of a sequence is its length. */
    lemma SequenceBorder(n: nat, b: int)
      requires Valid() && |slots| < TWO_53 && n < TWO_53 && IsSequence(n)
      ensures !Misled() && (Border(b) ==> b == n)
    {
      forall k | k >= 1 ensures AtInt(k) != Nil <==> k <= n {
        AtIntIsGet(k);
        MergedAt(slots, hash, IntKey(k));
        if k >= TWO_53 {
          RoundNatLarge(k);
        }
        assert IntKey(k) in Contents() <==> Round(k) <= n;
      }
      NotMisled();
    }

    /** length: a border, exactly when the search beyond the array part is not led astray by
        sums that leave the integers; hence the number of elements of every sequence. */
    method Length() returns (n: int)
      requires Valid() && |slots| + |hash| < TWO_53
      ensures Border(n) <==> !Misled()
      ensures forall m: nat :: m < TWO_53 && IsSequence(m) ==> n == m
    {
      n := Search();
      forall m: nat | m < TWO_53 && IsSequence(m) ensures n == m {
        SequenceBorder(m, n);
      }
    }

    method Search() returns (n: int)
      requires Valid() && |slots| + |hash| < TWO_53
      ensures Border(n) <==> !Misled()
    {
      var j := |slots|;
      if j > 0 && slots[j - 1] == Nil {
        var i := 0;
        while j - i > 1
          invariant 0 <= i < j <= |slots| && slots[j - 1] == Nil
          invariant i == 0 || slots[i - 1] != Nil
        {
          var m := (i + j) / 2;
          if slots[m - 1] == Nil {
            j := m;
          } else {
            i := m;
          }
        }
        return i;
      }
      n := UnboundSearch();
    }
  }

  /** `copied` is `slots` with `vs` written over it. */
  ghost predicate Overlaid(slots: seq<Value>, start: nat, vs: seq<Value>, copied: seq<Value>) {
    && |copied| == |slots| && start + |vs| <= |slots|
    && forall i :: 0 <= i < |slots| ==> copied[i] == if start <= i < start + |vs| then vs[i - start] else slots[i]
  }

  lemma {:induction false} CopyPuts(slots: seq<Value>, hash: map<Key, Value>, start: nat, vs: seq<Value>, copied: seq<Value>)
    requires Separate(|slots|, hash) && Overlaid(slots, start, vs, copied)
    ensures Merged(copied, hash) == PutList(Merged(slots, hash), start, vs)
    decreases |vs|
  {
    var n := |vs|;
    if n == 0 {
      assert copied == slots;
    } else {
      var shorter := copied[start + n - 1 := slots[start + n - 1]];
      CopyPuts(slots, hash, start, vs[..n - 1], shorter);
      PutInto(shorter, hash, Num(Whole(start + n)), vs[n - 1], copied, hash);
    }
  }

  /** While entries are being moved, what is still in the hash part counts. */
  function Halfway(slots: seq<Value>, hash: map<Key, Value>, k: Key): Value {
    if k in hash then hash[k] else if InArray(|slots|, k) then slots[k.f.i - 1] else Nil
  }

  lemma RoomAdded(slots: seq<Value>, slots': seq<Value>, hash: map<Key, Value>)
    requires Separate(|slots|, hash) && |slots| <= |slots'| && slots'[..|slots|] == slots
    requires forall i :: |slots| <= i < |slots'| ==> slots'[i] == Nil
    ensures forall k :: Halfway(slots', hash, k) == Lookup(slots, hash, k)
  {
    forall k ensures Halfway(slots', hash, k) == Lookup(slots, hash, k) {
      if InArray(|slots|, k) {
        assert slots'[..|slots|][k.f.i - 1] == slots[k.f.i - 1];
      }
    }
  }

  lemma KeyMoved(slots: seq<Value>, hash: map<Key, Value>, k: Key)
    requires k in hash && InArray(|slots|, k)
    ensures forall q :: Halfway(slots[k.f.i - 1 := hash[k]], hash - {k}, q) == Halfway(slots, hash, q)
  {
  }

  lemma SameContents(slots: seq<Value>, hash: map<Key, Value>, slots': seq<Value>, hash': map<Key, Value>)
    requires Separate(|slots|, hash) && Separate(|slots'|, hash')
    requires forall k :: Halfway(slots', hash', k) == Lookup(slots, hash, k)
    ensures Merged(slots', hash') == Merged(slots, hash)
  {
    forall k ensures Get(Merged(slots, hash), k) == Lookup(slots', hash', k) {
      MergedAt(slots, hash, k);
      assert Halfway(slots', hash', k) == Lookup(slots, hash, k);
    }
    MergedIs(slots', hash', Merged(slots, hash));
  }

  function NonNil(vs: seq<Value>): nat {
    if vs == [] then 0 else NonNil(vs[..|vs| - 1]) + if vs[|vs| - 1] == Nil then 0 else 1
  }

  lemma NonNilSize(vs: seq<Value>)
    ensures NonNil(vs) <= |vs|
  {
  }

  function IntKeysUpTo(hash: map<Key, Value>, key: nat): set<Key> {
    set k | k in hash && IsInt(k) && k.f.i <= key
  }

  lemma TakenOut<T>(a: set<T>, b: set<T>, x: T)
    requires x in b
    ensures |a - (b - {x})| == |a - b| + if x in a then 1 else 0
  {
    assert a - (b - {x}) == if x in a then (a - b) + {x} else a - b;
  }

  lemma SubsetSize<T>(a: set<T>, b: set<T>)
    requires a <= b
    ensures |a| <= |b|
  {
    if a != {} {
      var x :| x in a;
      SubsetSize(a - {x}, b - {x});
    }
  }

  /** Rounding does not lead into the array's range. */
  lemma RoundOutside(k: int, n: nat)
    requires !(0 < k <= n) && n < TWO_53
    ensures !InArray(n, IntKey(k))
  {
    if k >= TWO_53 {
      RoundNatLarge(k);
    } else if k <= -TWO_53 {
      RoundNatLarge(-k);
    }
  }

  lemma RoundNatLarge(k: nat)
    requires k >= TWO_53
    ensures RoundNat(k) >= TWO_53
  {
    UlpFits(k);
    var u := Ulp(k);
    assert (k / u) * u >= (TWO_53 / 2) * 2;
  }

  /** A float64 has 53 significant bits. */
  lemma {:induction false} UlpFits(k: nat)
    requires k >= TWO_53
    ensures Ulp(k) >= 2 && TWO_53 / 2 <= k / Ulp(k) < TWO_53
  {
    var u := Ulp(k / 2);
    HalfQuotient(k, u);
    if k / 2 >= TWO_53 {
      UlpFits(k / 2);
    }
  }

  lemma HalfQuotient(k: nat, u: nat)
    requires u > 0
    ensures k / (2 * u) == k / 2 / u
  {
    var q, r := k / 2 / u, (k / 2) % u;
    assert k == (2 * u) * q + (2 * r + k % 2);
    QuotientIs(k, 2 * u, q, 2 * r + k % 2);
  }

  lemma QuotientIs(k: nat, d: nat, q: nat, r: nat)
    requires d > 0 && k == d * q + r && r < d
    ensures k / d == q
  {
    var q', r' := k / d, k % d;
    if q' > q {
      Gap(d, q, q' - q);
    } else if q' < q {
      Gap(d, q', q - q');
    }
  }

  lemma Gap(d: nat, q: nat, e: nat)
    requires d > 0 && e > 0
    ensures d * (q + e) >= d * q + d
  {
    assert d * (q + e) == d * q + d * e;
    assert d * e == d * (e - 1) + d;
  }

  lemma {:induction false} IntKeysSize(a: nat, n: nat, keys: set<Key>)
    requires a <= n && keys == set k | a < k <= n :: Num(Whole(k))
    ensures |keys| == n - a
  {
    if a < n {
      var fewer := set k | a < k <= n - 1 :: Num(Whole(k));
      IntKeysSize(a, n - 1, fewer);
      assert keys == fewer + {Num(Whole(n))};
    } else {
      assert keys == {};
    }
  }

  function Pow2(e: nat): (r: nat)
    ensures r > 0
  {
    if e == 0 then 1 else 2 * Pow2(e - 1)
  }


  // ---- A table that misleads the search ----

  /** Numbers of at most 53 significant bits are exact. */
  lemma {:induction false} UlpDivides(o: nat, e: nat) returns (q: nat)
    requires o < TWO_53
    ensures o * Pow2(e) == Ulp(o * Pow2(e)) * q
  {
    var k := o * Pow2(e);
    if k < TWO_53 {
      q := k;
    } else {
      Doubled(o, e);
      q := UlpDivides(o, e - 1);
      UlpDoubles(o * Pow2(e - 1), q);
    }
  }

  lemma Doubled(o: nat, e: nat)
    requires e > 0
    ensures o * Pow2(e) == 2 * (o * Pow2(e - 1))
  {
  }

  lemma UlpDoubles(h: nat, q: nat)
    requires 2 * h >= TWO_53 && h == Ulp(h) * q
    ensures 2 * h == Ulp(2 * h) * q
  {
    var u := Ulp(h);
    assert Ulp(2 * h) == 2 * u;
    hide Ulp;
    assert (2 * u) * q == 2 * (u * q);
  }

  lemma RoundExact(o: nat, e: nat)
    requires o < TWO_53
    ensures Round(o * Pow2(e)) == o * Pow2(e)
  {
    hide Pow2, Ulp;
    var k := o * Pow2(e);
    var q := UlpDivides(o, e);
    QuotientIs(k, Ulp(k), q, 0);
  }

  function TowerKey(e: nat): Key {
    Num(Whole(7 * Pow2(e)))
  }

  /** The keys 7, 14, 28, ..., 7 * 2^59. */
  function TowerKeys(): set<Key> {
    set e: nat | e < 60 :: TowerKey(e)
  }

  function Tower(): map<Key, Value> {
    map k | k in TowerKeys() :: Some(0)
  }

  /** Six elements in the array part and the keys of the tower: length gives 7 * 2^59, and the
      key behind it, which rounds to the same number, is present. */
  lemma LengthMisled(t: Table)
    requires t.slots == [Some(0), Some(0), Some(0), Some(0), Some(0), Some(0)] && t.hash == Tower()
    ensures t.Valid() && t.Misled()
  {
    hide Ulp;
    forall e: nat | e < 60 ensures 7 * Pow2(e) >= 7 {
    }
    TowerMiss(t, 0);
    TowerHeight();
    RoundTop();
    TowerAt(t, 59);
    hide Round, Pow2, Tower, Table.FirstMiss;
    assert t.Bracket(TOP, 2 * TOP) == (TOP, 2 * TOP);
    assert t.AtInt(TOP + 1) == t.AtInt(TOP);
  }

  const TOP: nat := 0x3800_0000_0000_0000

  lemma TowerHeight()
    ensures 7 * Pow2(59) == TOP && 7 * Pow2(60) == 2 * TOP
  {
    assert Pow2(15) == 0x8000;
    PowSum(15, 15);
    PowSum(30, 15);
    PowSum(45, 14);
  }

  lemma {:induction false} PowSum(a: nat, b: nat)
    ensures Pow2(a + b) == Pow2(a) * Pow2(b)
  {
    if b > 0 {
      PowSum(a, b - 1);
    }
  }

  lemma RoundTop()
    ensures Round(TOP) == TOP && Round(TOP + 1) == TOP
  {
    UlpTop(TOP);
    UlpTop(TOP + 1);
  }

  lemma UlpTop(k: nat)
    requires TOP <= k <= TOP + 1
    ensures Ulp(k) == 512
  {
    var k1 := k / 2;
    var k2 := k1 / 2;
    var k3 := k2 / 2;
    var k4 := k3 / 2;
    var k5 := k4 / 2;
    var k6 := k5 / 2;
    var k7 := k6 / 2;
    var k8 := k7 / 2;
    assert Ulp(k8) == 2;
    assert Ulp(k7) == 4;
    assert Ulp(k5) == 16;
    assert Ulp(k3) == 64;
    assert Ulp(k1) == 256;
  }

  lemma TowerAt(t: Table, e: nat)
    requires |t.slots| == 6 && t.hash == Tower()
    ensures t.AtInt(7 * Pow2(e)) != Nil <==> e < 60
  {
    hide Round, Pow2;
    var k := 7 * Pow2(e);
    RoundExact(7, e);
    assert e < 60 ==> TowerKey(e) in TowerKeys();
    if TowerKey(e) in TowerKeys() {
      var d: nat :| d < 60 && TowerKey(e) == TowerKey(d);
      PowInjective(d, e);
    }
  }

  lemma {:induction false} PowInjective(d: nat, e: nat)
    requires Pow2(d) == Pow2(e)
    ensures d == e
  {
    if d > 0 && e > 0 {
      PowInjective(d - 1, e - 1);
    }
  }

  lemma {:induction false} PowMonotone(d: nat, e: nat)
    requires d <= e
    ensures Pow2(d) <= Pow2(e)
  {
    if d < e {
      PowMonotone(d, e - 1);
    }
  }

  lemma {:induction false} TowerMiss(t: Table, e: nat)
    requires |t.slots| == 6 && t.hash == Tower() && e <= 60
    ensures t.FirstMiss(7 * Pow2(e)) == 7 * Pow2(60)
    decreases 60 - e
  {
    TowerAt(t, e);
    if e < 60 {
      TowerMiss(t, e + 1);
      PowMonotone(e, 59);
      TowerHeight();
      var k := 7 * Pow2(e);
      assert 7 * Pow2(e + 1) == 2 * k;
      assert k < TWO_63;
      hide Pow2;
    }
  }

  // ---- Such a table comes about ----

  function TowerSet(e: nat): set<Key> {
    if e == 0 then {} else TowerSet(e - 1) + {TowerKey(e - 1)}
  }

  ghost predicate TowerUpTo(hash: map<Key, Value>, e: nat) {
    |hash| == e && hash.Keys == TowerSet(e) && forall k :: k in hash ==> hash[k] == Some(0)
  }

  lemma {:induction false} InTowerSet(k: Key, e: nat) returns (d: nat)
    requires k in TowerSet(e)
    ensures d < e && k == TowerKey(d)
  {
    if k == TowerKey(e - 1) {
      return e - 1;
    }
    d := InTowerSet(k, e - 1);
  }

  lemma {:induction false} OfTowerSet(d: nat, e: nat)
    requires d < e
    ensures TowerKey(d) in TowerSet(e)
  {
    if d < e - 1 {
      OfTowerSet(d, e - 1);
    }
  }

  lemma TowerGrows(hash: map<Key, Value>, e: nat)
    requires TowerUpTo(hash, e)
    ensures TowerUpTo(hash[TowerKey(e) := Some(0)], e + 1)
  {
    if TowerKey(e) in hash {
      var d := InTowerSet(TowerKey(e), e);
      PowInjective(d, e);
    }
    hide TowerKey;
    var more := hash[TowerKey(e) := Some(0)];
    assert more.Keys == hash.Keys + {TowerKey(e)};
  }

  lemma TowerComplete(hash: map<Key, Value>)
    requires TowerUpTo(hash, 60)
    ensures hash == Tower()
  {
    hide TowerKey, TowerSet;
    forall k | k in hash ensures k in TowerKeys() {
      var d := InTowerSet(k, 60);
    }
    forall k | k in TowerKeys() ensures k in hash {
      var d: nat :| d < 60 && k == TowerKey(d);
      OfTowerSet(d, 60);
    }
  }

  /** Its next key is far beyond what would make the array part grow. */
  lemma TowerStep(e: nat)
    requires e < 60
    ensures 7 * Pow2(e) > 6 && e < 7 * Pow2(e) / 2 && IsInt64(7 * Pow2(e)) && IntKey(7 * Pow2(e)) == TowerKey(e)
  {
    RoundExact(7, e);
    PowMonotone(e, 59);
    TowerHeight();
    PowAbove(e);
  }

  lemma {:induction false} PowAbove(e: nat)
    ensures e < Pow2(e)
  {
    if e > 0 {
      PowAbove(e - 1);
    }
  }

  lemma {:induction false} EmptySlots(slots: seq<Value>)
    requires forall i :: 0 <= i < |slots| ==> slots[i] == Nil
    ensures NonNil(slots) == 0
  {
    if slots != [] {
      EmptySlots(slots[..|slots| - 1]);
    }
  }

  /** The tower in the hash part, with six empty slots in the array part. */
  method BuildTower() returns (t: Table)
    ensures fresh(t) && t.Valid() && t.hash == Tower() && |t.hash| == 60 && t.slots == seq(6, _ => Nil)
  {
    hide Pow2, IntKey, TowerKey, NonNil, IntKeysUpTo, Tower;
    t := new Table(6);
    EmptySlots(t.slots);
    ghost var empty := t.slots;
    var e := 0;
    while e < 60
      invariant 0 <= e <= 60 && fresh(t) && t.Valid()
      invariant t.slots == empty && TowerUpTo(t.hash, e)
    {
      TowerStep(e);
      FewKeys(t.hash, 7 * Pow2(e));
      TowerGrows(t.hash, e);
      hide TowerUpTo;
      t.PutAtInt(7 * Pow2(e), Some(0));
      e := e + 1;
    }
    TowerComplete(t.hash);
  }

  lemma FewKeys(hash: map<Key, Value>, key: nat)
    ensures |IntKeysUpTo(hash, key)| <= |hash|
  {
    SubsetSize(IntKeysUpTo(hash, key), hash.Keys);
  }

  /** By puts and one list constructor, a table is made whose length is not a border. */
  method MakeMisled() returns (border: bool)
    ensures !border
  {
    hide Tower;
    var t := BuildTower();
    var six := [Some(0), Some(0), Some(0), Some(0), Some(0), Some(0)];
    t.SetList(0, six);
    assert t.slots == six;
    LengthMisled(t);
    hide Table.Misled;
    var n := t.Length();
    border := t.Border(n);
  }
}
