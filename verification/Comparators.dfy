/** The bytewise comparator and that on internal keys, with their ways to shorten a key. */
module Comparators {
  import opened Primitives

  // ----- Bytewise order -----

  // Lexicographic, as memcmp and then the lengths.
  predicate Less(a: Bytes, b: Bytes)
    decreases |a|
  {
    if b == [] then false
    else if a == [] then true
    else a[0] < b[0] || (a[0] == b[0] && Less(a[1..], b[1..]))
  }

  lemma {:induction false} LessIsTotal(a: Bytes, b: Bytes)
    ensures Less(a, b) || a == b || Less(b, a)
    ensures !(Less(a, b) && Less(b, a)) && !Less(a, a)
    decreases |a|
  {
    if a != [] && b != [] {
      LessIsTotal(a[1..], b[1..]);
      assert a[0] == b[0] && a[1..] == b[1..] ==> a == [a[0]] + a[1..] == b;
    }
    if a != [] {
      LessIsTotal(a[1..], a[1..]);
    }
  }

  lemma {:induction false} LessIsTransitive(a: Bytes, b: Bytes, c: Bytes)
    requires Less(a, b) && Less(b, c)
    ensures Less(a, c)
    decreases |a|
  {
    if a != [] && a[0] == b[0] == c[0] {
      LessIsTransitive(a[1..], b[1..], c[1..]);
    }
  }

  // Strings that first differ at n are ordered as they are there.
  lemma {:induction false} LessAtDifference(a: Bytes, b: Bytes, n: nat)
    requires n < |a| && n < |b| && a[..n] == b[..n] && a[n] != b[n]
    ensures Less(a, b) <==> a[n] < b[n]
  {
    if n > 0 {
      assert a[0] == a[..n][0] && b[0] == b[..n][0];
      assert a[1..][..n - 1] == a[..n][1..] && b[1..][..n - 1] == b[..n][1..];
      LessAtDifference(a[1..], b[1..], n - 1);
    }
  }

  // A string between two others has the bytes that these begin with in common, and more.
  lemma {:induction false} BetweenIsLonger(a: Bytes, b: Bytes, n: nat, s: Bytes)
    requires n <= |a| && n <= |b| && a[..n] == b[..n] && Less(a, s) && Less(s, b)
    ensures |s| > n
    decreases n
  {
    if n > 0 {
      assert a[0] == a[..n][0] && b[0] == b[..n][0];
      assert a[1..][..n - 1] == a[..n][1..] && b[1..][..n - 1] == b[..n][1..];
      BetweenIsLonger(a[1..], b[1..], n - 1, s[1..]);
    }
  }

  // A string after one that begins with a run of 0xff is longer than the run.
  lemma {:induction false} AfterRunIsLonger(a: Bytes, n: nat, s: Bytes)
    requires n <= |a| && (forall j :: 0 <= j < n ==> a[j] == 0xff) && Less(a, s)
    ensures |s| > n
    decreases n
  {
    if n > 0 {
      AfterRunIsLonger(a[1..], n - 1, s[1..]);
    }
  }

  predicate IsBetween(s: Bytes, start: Bytes, limit: Bytes) {
    Less(start, s) && Less(s, limit)
  }

  // Is there room for a byte between those in which two strings first differ?
  predicate HasRoom(start: Bytes, limit: Bytes) {
    var n := CommonPrefix(start, limit);
    n < |start| && n < |limit| && start[n] < 0xff && start[n] + 1 < limit[n]
  }

  /** Where there is room for it, a shortest string of all between the two; else start itself. */
  method FindShortestSeparator(start: Bytes, limit: Bytes) returns (r: Bytes)
    ensures |r| <= |start| && (r != start <==> HasRoom(start, limit))
    ensures r != start ==> IsBetween(r, start, limit) && forall s :: IsBetween(s, start, limit) ==> |r| <= |s|
  {
    var minLength := if |start| < |limit| then |start| else |limit|;
    var diffIndex := 0;
    while diffIndex < minLength && start[diffIndex] == limit[diffIndex]
      invariant diffIndex <= minLength && start[..diffIndex] == limit[..diffIndex]
    {
      diffIndex := diffIndex + 1;
    }
    CommonPrefixIs(start, limit, diffIndex);
    r := start;
    if diffIndex >= minLength {
      // With a prefix there is nothing between the two to take.
    } else {
      var diffByte := start[diffIndex];
      if diffByte < 0xff && diffByte + 1 < limit[diffIndex] {
        r := start[..diffIndex] + [diffByte + 1];
        LessAtDifference(start, r, diffIndex);
        LessAtDifference(r, limit, diffIndex);
        forall s | IsBetween(s, start, limit) ensures |r| <= |s| {
          BetweenIsLonger(start, limit, diffIndex, s);
        }
      }
    }
  }

  lemma {:induction false} CommonPrefixIs(a: Bytes, b: Bytes, n: nat)
    requires n <= |a| && n <= |b| && a[..n] == b[..n] && (n == |a| || n == |b| || a[n] != b[n])
    ensures CommonPrefix(a, b) == n
    decreases n
  {
    if n > 0 {
      assert a[0] == a[..n][0] && b[0] == b[..n][0];
      assert a[1..][..n - 1] == a[..n][1..] && b[1..][..n - 1] == b[..n][1..];
      CommonPrefixIs(a[1..], b[1..], n - 1);
    }
  }

  /** A shortest string of all after the key; but a run of 0xff is left alone. */
  method FindShortSuccessor(key: Bytes) returns (r: Bytes)
    ensures |r| <= |key| && (r == key <==> forall b :: b in key ==> b == 0xff)
    ensures r != key ==> Less(key, r) && forall s :: Less(key, s) ==> |r| <= |s|
  {
    for i := 0 to |key|
      invariant forall j :: 0 <= j < i ==> key[j] == 0xff
    {
      if key[i] != 0xff {
        r := key[..i] + [key[i] + 1];
        assert r[i] != key[i] && key[i] in key;
        LessAtDifference(key, r, i);
        forall s | Less(key, s) ensures |r| <= |s| {
          AfterRunIsLonger(key, i, s);
        }
        return;
      }
    }
    // A run of 0xffs is left alone.
    r := key;
  }

  // ----- Internal keys -----

  // A user key, and the sequence number and kind in eight bytes.
  datatype IKey = IKey(user: Bytes, pack: nat)

  // What a seek for a user key starts from: no pack of a key is more.
  const SEEK_PACK: nat := 0xff_ffff_ffff_ffff * 256 + 1

  // By user key, then by falling sequence number.
  predicate IBefore(a: IKey, b: IKey) {
    Less(a.user, b.user) || (a.user == b.user && a.pack > b.pack)
  }

  predicate IAtMost(a: IKey, b: IKey) {
    a == b || IBefore(a, b)
  }

  lemma IBeforeIsTotal(a: IKey, b: IKey)
    ensures IBefore(a, b) || a == b || IBefore(b, a)
    ensures !(IBefore(a, b) && IBefore(b, a)) && !IBefore(a, a)
  {
    LessIsTotal(a.user, b.user);
    LessIsTotal(a.user, a.user);
  }

  lemma IBeforeIsTransitive(a: IKey, b: IKey, c: IKey)
    requires IBefore(a, b) && IBefore(b, c)
    ensures IBefore(a, c)
  {
    if Less(a.user, b.user) && Less(b.user, c.user) {
      LessIsTransitive(a.user, b.user, c.user);
    }
  }

  /** Start itself, unless there is a shorter user key between the two: then a shortest one, before all
      keys that have it. */
  method FindShortestInternalSeparator(start: IKey, limit: IKey) returns (r: IKey)
    ensures r != start <==> HasRoom(start.user, limit.user) && CommonPrefix(start.user, limit.user) + 1 < |start.user|
    ensures r != start ==> r.pack == SEEK_PACK && |r.user| < |start.user| && IsBetween(r.user, start.user, limit.user)
    ensures r != start ==> forall s :: IsBetween(s, start.user, limit.user) ==> |r.user| <= |s|
  {
    // The user key alone may have a shorter separator.
    var tmp := FindShortestSeparator(start.user, limit.user);
    r := start;
    ShortestBetween(start.user, limit.user, tmp);
    if |tmp| < |start.user| && Less(start.user, tmp) {
      // It did: the key has fewer bytes and comes later.
      r := IKey(tmp, SEEK_PACK);
    }
  }

  // How long a shortest string between two others is, where there is room for one.
  lemma ShortestBetween(start: Bytes, limit: Bytes, r: Bytes)
    requires r != start ==> IsBetween(r, start, limit) && forall s :: IsBetween(s, start, limit) ==> |r| <= |s|
    requires r != start <==> HasRoom(start, limit)
    ensures r != start ==> |r| == CommonPrefix(start, limit) + 1
  {
    if r != start {
      var n := CommonPrefix(start, limit);
      var s := start[..n] + [start[n] + 1];
      LessAtDifference(start, s, n);
      LessAtDifference(s, limit, n);
      assert IsBetween(s, start, limit);
      BetweenIsLonger(start, limit, n, r);
    }
  }

  /** Key itself, unless there is a shorter user key after it: then a shortest one, before all keys that
      have it. */
  method FindShortInternalSuccessor(key: IKey) returns (r: IKey)
    ensures r != key <==> exists s :: Less(key.user, s) && |s| < |key.user|
    ensures r != key ==> r.pack == SEEK_PACK && |r.user| < |key.user| && Less(key.user, r.user)
    ensures r != key ==> forall s :: Less(key.user, s) ==> |r.user| <= |s|
  {
    var tmp := FindShortSuccessor(key.user);
    r := key;
    if |tmp| < |key.user| && Less(key.user, tmp) {
      r := IKey(tmp, SEEK_PACK);
    } else {
      forall s | Less(key.user, s) ensures |key.user| <= |s| {
        if tmp == key.user {
          assert forall j :: 0 <= j < |key.user| ==> key.user[j] in key.user;
          AfterRunIsLonger(key.user, |key.user|, s);
        }
      }
    }
  }
}
