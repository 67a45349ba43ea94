/** Versions: the files of each level, searching them, and reading through them. */
module Versions {
  import opened Primitives
  import opened InternalKeys

  const MAX_MEM_COMPACT_LEVEL: nat := 2
  const TARGET_FILE_SIZE: nat := 2 * 1048576
  const MAX_GRANDPARENT_OVERLAP_BYTES: nat := 10 * TARGET_FILE_SIZE

  // A table file: its metadata and the entries stored in it.
  datatype File = File(number: nat, size: nat, smallest: InternalKey, largest: InternalKey, entries: seq<Entry>) {
    // What a finished table satisfies.  The largest sequence number is kept for seeks.
    ghost predicate Valid() {
      && entries != []
      && Sorted(entries)
      && smallest == entries[0].key
      && largest == entries[|entries| - 1].key
      && forall e :: e in entries ==> e.key.sequence < MAX_SEQUENCE
    }

    predicate Covers(u: UserKey) {
      smallest.user <= u <= largest.user
    }
  }

  lemma EntriesAreInRange(f: File, e: Entry)
    requires f.Valid() && e in f.entries
    ensures !Before(e.key, f.smallest) && !Before(f.largest, e.key)
    ensures f.Covers(e.key.user)
  {
  }

  type Version = v: seq<seq<File>> | |v| == NUM_LEVELS witness [[], [], [], [], [], [], []]

  ghost predicate ValidFiles(files: seq<File>) {
    forall i :: 0 <= i < |files| ==> files[i].Valid()
  }

  // The files of a level above level 0 are in key order and do not overlap.
  ghost predicate Disjoint(files: seq<File>) {
    forall i, j :: 0 <= i < j < |files| ==> Before(files[i].largest, files[j].smallest)
  }

  ghost function LevelContents(files: seq<File>): set<Entry> {
    set f, e | f in files && e in f.entries :: e
  }

  ghost function Contents(v: Version): set<Entry> {
    set l, e | 0 <= l < NUM_LEVELS && e in LevelContents(v[l]) :: e
  }

  lemma InContents(v: Version, level: nat, f: File)
    requires level < NUM_LEVELS && f in v[level]
    ensures Elements(f.entries) <= LevelContents(v[level]) <= Contents(v)
  {
  }

  // Every entry of a is newer than every entry of b for the same user key.
  ghost predicate Newer(a: set<Entry>, b: set<Entry>) {
    forall x, y | x in a && y in b && x.key.Parses() && y.key.Parses() ::
      x.key.user == y.key.user ==> x.key.sequence > y.key.sequence
  }

  // Level 0 files overlap; a higher file number marks newer data.
  ghost predicate NewerByNumber(files: seq<File>) {
    && (forall f, g :: f in files && g in files && f != g ==> f.number != g.number)
    && (forall f, g :: f in files && g in files && f.number > g.number ==> Newer(Elements(f.entries), Elements(g.entries)))
  }

  ghost predicate Ordered(v: Version) {
    && (forall l :: 0 <= l < NUM_LEVELS ==> ValidFiles(v[l]))
    && (forall l :: 1 <= l < NUM_LEVELS ==> Disjoint(v[l]))
  }

  // Each level can be searched on its own.
  ghost predicate Searchable(v: Version) {
    Ordered(v) && NewerByNumber(v[0])
  }

  // The shape every version keeps: sorted levels, and newer data above older data.
  ghost predicate Layered(v: Version) {
    && Ordered(v)
    && NewerByNumber(v[0])
    && (forall l, m {:trigger Newer(LevelContents(v[l]), LevelContents(v[m]))} :: 0 <= l < m < NUM_LEVELS ==> Newer(LevelContents(v[l]), LevelContents(v[m])))
  }

  // ----- Searching the files of a level -----

  // The first file whose largest key is at or after k.
  method FindFile(files: seq<File>, k: InternalKey) returns (index: nat)
    requires ValidFiles(files) && Disjoint(files)
    ensures index <= |files|
    ensures forall i :: 0 <= i < index ==> Before(files[i].largest, k)
    ensures forall i :: index <= i < |files| ==> !Before(files[i].largest, k)
  {
    var left, right := 0, |files|;
    while left < right
      invariant 0 <= left <= right <= |files|
      invariant forall i :: 0 <= i < left ==> Before(files[i].largest, k)
      invariant forall i :: right <= i < |files| ==> !Before(files[i].largest, k)
    {
      var mid := (left + right) / 2;
      if Compare(files[mid].largest, k) < 0 {
        ComparePacksCorrectly(files[mid].largest, k);
        forall i | left <= i < mid
          ensures Before(files[i].largest, k)
        {
          LargestIncreases(files, i, mid);
        }
        left := mid + 1;
      } else {
        ComparePacksCorrectly(files[mid].largest, k);
        forall i | mid < i < right
          ensures !Before(files[i].largest, k)
        {
          LargestIncreases(files, mid, i);
        }
        right := mid;
      }
    }
    return right;
  }

  lemma LargestIncreases(files: seq<File>, i: nat, j: nat)
    requires ValidFiles(files) && Disjoint(files)
    requires i < j < |files|
    ensures Before(files[i].largest, files[j].smallest)
    ensures Before(files[i].largest, files[j].largest)
  {
    EntriesAreInRange(files[j], files[j].entries[0]);
  }

  // An absent bound stands for the end of the key space.
  predicate AfterFile(u: Option<UserKey>, f: File) {
    u.Some? && u.value > f.largest.user
  }

  predicate BeforeFile(u: Option<UserKey>, f: File) {
    u.Some? && u.value < f.smallest.user
  }

  predicate Overlaps(f: File, lo: Option<UserKey>, hi: Option<UserKey>) {
    !AfterFile(lo, f) && !BeforeFile(hi, f)
  }

  method SomeFileOverlapsRange(disjoint: bool, files: seq<File>, lo: Option<UserKey>, hi: Option<UserKey>) returns (r: bool)
    requires ValidFiles(files)
    requires disjoint ==> Disjoint(files)
    ensures r <==> exists f :: f in files && Overlaps(f, lo, hi)
  {
    if !disjoint {
      for i := 0 to |files|
        invariant forall j :: 0 <= j < i ==> !Overlaps(files[j], lo, hi)
      {
        if AfterFile(lo, files[i]) || BeforeFile(hi, files[i]) {
        } else {
          assert files[i] in files;
          return true;
        }
      }
      return false;
    }
    var index := 0;
    if lo.Some? {
      index := FindFile(files, InternalKey(lo.value, MAX_SEQUENCE, KIND_FOR_SEEK));
      forall i | 0 <= i < |files|
        ensures i < index <==> AfterFile(lo, files[i])
      {
        assert files[i].entries[|files[i].entries| - 1] in files[i].entries;
      }
    }
    if index >= |files| {
      return false;
    }
    forall i | index <= i < |files|
      ensures BeforeFile(hi, files[index]) ==> BeforeFile(hi, files[i])
    {
      if index < i {
        LargestIncreases(files, index, i);
        EntriesAreInRange(files[index], files[index].entries[0]);
      }
    }
    r := !BeforeFile(hi, files[index]);
    assert files[index] in files;
  }

  // ----- Inputs that overlap a range -----

  function OverlappingFiles(files: seq<File>, lo: Option<UserKey>, hi: Option<UserKey>): (r: seq<File>) {
    if files == [] then []
    else
      var rest := OverlappingFiles(files[..|files| - 1], lo, hi);
      var f := files[|files| - 1];
      if Overlaps(f, lo, hi) then rest + [f] else rest
  }

  lemma {:induction false} OverlappingFilesMembers(files: seq<File>, lo: Option<UserKey>, hi: Option<UserKey>)
    ensures forall f :: f in OverlappingFiles(files, lo, hi) <==> f in files && Overlaps(f, lo, hi)
  {
    if files != [] {
      OverlappingFilesMembers(files[..|files| - 1], lo, hi);
      assert files == files[..|files| - 1] + [files[|files| - 1]];
    }
  }

  // The range [lo, hi] contains the range [lo2, hi2].
  predicate Contains(lo: Option<UserKey>, hi: Option<UserKey>, lo2: Option<UserKey>, hi2: Option<UserKey>) {
    && (lo.None? || (lo2.Some? && lo.value <= lo2.value))
    && (hi.None? || (hi2.Some? && hi2.value <= hi.value))
  }

  predicate FitsIn(f: File, lo: Option<UserKey>, hi: Option<UserKey>) {
    Contains(lo, hi, Some(f.smallest.user), Some(f.largest.user))
  }

  // Every file that overlaps the range lies inside it.
  ghost predicate Closed(files: seq<File>, lo: Option<UserKey>, hi: Option<UserKey>) {
    ClosedUpTo(files, |files|, lo, hi)
  }

  ghost predicate ClosedUpTo(files: seq<File>, n: nat, lo: Option<UserKey>, hi: Option<UserKey>)
    requires n <= |files|
  {
    forall i :: 0 <= i < n && Overlaps(files[i], lo, hi) ==> FitsIn(files[i], lo, hi)
  }

  // [lo, hi] is within every closed range that contains [begin, end].
  ghost predicate WithinEveryClosure(files: seq<File>, begin: Option<UserKey>, end: Option<UserKey>,
                                     lo: Option<UserKey>, hi: Option<UserKey>)
  {
    forall a, b :: Closed(files, a, b) && Contains(a, b, begin, end) ==> Contains(a, b, lo, hi)
  }

  // Widening the range to take in a file that overlaps it stays within every closure.
  lemma WideningStaysWithin(files: seq<File>, begin: Option<UserKey>, end: Option<UserKey>,
                            lo: Option<UserKey>, hi: Option<UserKey>, i: nat, lo2: Option<UserKey>, hi2: Option<UserKey>)
    requires i < |files| && Overlaps(files[i], lo, hi)
    requires WithinEveryClosure(files, begin, end, lo, hi)
    requires lo2 == lo || (lo.Some? && lo2 == Some(files[i].smallest.user))
    requires hi2 == hi || (hi.Some? && hi2 == Some(files[i].largest.user))
    ensures WithinEveryClosure(files, begin, end, lo2, hi2)
  {
    forall a, b | Closed(files, a, b) && Contains(a, b, begin, end)
      ensures Contains(a, b, lo2, hi2)
    {
      assert Contains(a, b, lo, hi);
      assert Overlaps(files[i], a, b);
      assert FitsIn(files[i], a, b);
    }
  }

  // How far the range can still be widened: the files that stick out of it.
  ghost function StickingOut(files: seq<File>, lo: Option<UserKey>, hi: Option<UserKey>): set<(nat, bool)> {
    (set i: nat | i < |files| && lo.Some? && files[i].smallest.user < lo.value :: (i, false))
    + (set i: nat | i < |files| && hi.Some? && files[i].largest.user > hi.value :: (i, true))
  }

  lemma WideningMakesProgress(files: seq<File>, lo: Option<UserKey>, hi: Option<UserKey>, i: nat)
    requires i < |files|
    ensures lo.Some? && files[i].smallest.user < lo.value ==>
              StickingOut(files, Some(files[i].smallest.user), hi) < StickingOut(files, lo, hi)
    ensures hi.Some? && files[i].largest.user > hi.value ==>
              StickingOut(files, lo, Some(files[i].largest.user)) < StickingOut(files, lo, hi)
  {
    if lo.Some? && files[i].smallest.user < lo.value {
      assert (i, false) in StickingOut(files, lo, hi);
      assert (i, false) !in StickingOut(files, Some(files[i].smallest.user), hi);
    }
    if hi.Some? && files[i].largest.user > hi.value {
      assert (i, true) in StickingOut(files, lo, hi);
      assert (i, true) !in StickingOut(files, lo, Some(files[i].largest.user));
    }
  }

  // The range to take files for [begin, end] from.
  ghost predicate LeastRange(files: seq<File>, level: nat, begin: Option<UserKey>, end: Option<UserKey>,
                             lo: Option<UserKey>, hi: Option<UserKey>)
  {
    && (level != 0 ==> lo == begin && hi == end)
    && Contains(lo, hi, begin, end) && lo.Some? == begin.Some? && hi.Some? == end.Some?
    && (level == 0 ==> Closed(files, lo, hi) && WithinEveryClosure(files, begin, end, lo, hi))
  }

  /** The files of a level that overlap [begin, end].  At level 0, where files overlap each
      other, the range is widened until it is closed: the search restarts whenever a file
      found sticks out of it.  The range reached is the least closed one. */
  method GetOverlappingInputs(files: seq<File>, level: nat, begin: Option<UserKey>, end: Option<UserKey>)
    returns (inputs: seq<File>, ghost lo: Option<UserKey>, ghost hi: Option<UserKey>)
    ensures inputs == OverlappingFiles(files, lo, hi) && LeastRange(files, level, begin, end, lo, hi)
  {
    var userBegin, userEnd := begin, end;
    inputs := [];
    var i := 0;
    while i < |files|
      invariant 0 <= i <= |files|
      invariant inputs == OverlappingFiles(files[..i], userBegin, userEnd)
      invariant Contains(userBegin, userEnd, begin, end)
      invariant userBegin.Some? == begin.Some? && userEnd.Some? == end.Some?
      invariant level != 0 ==> userBegin == begin && userEnd == end
      invariant level == 0 ==> ClosedUpTo(files, i, userBegin, userEnd)
      invariant level == 0 ==> WithinEveryClosure(files, begin, end, userBegin, userEnd)
      decreases StickingOut(files, userBegin, userEnd), |files| - i
    {
      var f := files[i];
      assert files[..i + 1][..i] == files[..i];
      i := i + 1;
      if userBegin.Some? && f.largest.user < userBegin.value {
      } else if userEnd.Some? && f.smallest.user > userEnd.value {
      } else {
        inputs := inputs + [f];
        if level == 0 {
          WideningMakesProgress(files, userBegin, userEnd, i - 1);
          if userBegin.Some? && f.smallest.user < userBegin.value {
            WideningStaysWithin(files, begin, end, userBegin, userEnd, i - 1, Some(f.smallest.user), userEnd);
            userBegin := Some(f.smallest.user);
            inputs := [];
            i := 0;
          } else if userEnd.Some? && f.largest.user > userEnd.value {
            WideningStaysWithin(files, begin, end, userBegin, userEnd, i - 1, userBegin, Some(f.largest.user));
            userEnd := Some(f.largest.user);
            inputs := [];
            i := 0;
          }
        }
      }
    }
    assert files[..i] == files;
    lo, hi := userBegin, userEnd;
  }

  // ----- Placing the output of a memtable -----

  function TotalFileSize(files: seq<File>): nat {
    if files == [] then 0 else TotalFileSize(files[..|files| - 1]) + files[|files| - 1].size
  }

  ghost predicate LevelOverlaps(v: Version, level: nat, lo: Option<UserKey>, hi: Option<UserKey>)
    requires level < NUM_LEVELS
  {
    exists f :: f in v[level] && Overlaps(f, lo, hi)
  }

  // A table over [lo, hi] may be pushed from level to level + 1.
  ghost predicate MaySink(v: Version, level: nat, lo: UserKey, hi: UserKey)
    requires level + 1 < NUM_LEVELS
  {
    && !LevelOverlaps(v, level + 1, Some(lo), Some(hi))
    && (level + 2 < NUM_LEVELS ==>
          TotalFileSize(OverlappingFiles(v[level + 2], Some(lo), Some(hi))) <= MAX_GRANDPARENT_OVERLAP_BYTES)
  }

  method OverlapInLevel(v: Version, level: nat, lo: Option<UserKey>, hi: Option<UserKey>) returns (r: bool)
    requires level < NUM_LEVELS && Ordered(v)
    ensures r <==> LevelOverlaps(v, level, lo, hi)
  {
    r := SomeFileOverlapsRange(level > 0, v[level], lo, hi);
  }

  /** The level at which to put a new table over [lo, hi]: as deep as it may sink, up to
      level 2. */
  method PickLevelForMemTableOutput(v: Version, lo: UserKey, hi: UserKey) returns (level: nat)
    requires Ordered(v)
    ensures level <= MAX_MEM_COMPACT_LEVEL
    ensures level > 0 ==> !LevelOverlaps(v, 0, Some(lo), Some(hi))
    ensures forall l :: 0 <= l < level ==> MaySink(v, l, lo, hi)
    ensures level < MAX_MEM_COMPACT_LEVEL ==> LevelOverlaps(v, 0, Some(lo), Some(hi)) || !MaySink(v, level, lo, hi)
  {
    level := 0;
    var overlap := OverlapInLevel(v, 0, Some(lo), Some(hi));
    if !overlap {
      while level < MAX_MEM_COMPACT_LEVEL
        invariant level <= MAX_MEM_COMPACT_LEVEL
        invariant forall l :: 0 <= l < level ==> MaySink(v, l, lo, hi)
      {
        overlap := OverlapInLevel(v, level + 1, Some(lo), Some(hi));
        if overlap {
          break;
        }
        if level + 2 < NUM_LEVELS {
          // Two levels down the table must not meet too many bytes.
          var overlaps, _, _ := GetOverlappingInputs(v[level + 2], level + 2, Some(lo), Some(hi));
          if TotalFileSize(overlaps) > MAX_GRANDPARENT_OVERLAP_BYTES {
            break;
          }
        }
        level := level + 1;
      }
    }
  }

  // ----- Reading through a version -----

  datatype GetResult = Found(value: Bytes) | NotFound | Corruption

  function Answer(read: Option<Bytes>): GetResult {
    match read
    case Some(value) => Found(value)
    case None => NotFound
  }

  ghost predicate Intact(es: set<Entry>) {
    forall e :: e in es ==> e.key.Parses()
  }

  // The first entry at or after k in a sorted run.
  function SeekHit(es: seq<Entry>, k: InternalKey): Option<Entry> {
    var i := FirstAtOrAfter(es, k);
    if i < |es| then Some(es[i]) else None
  }

  // What looking k up in one table passes on.
  function TableGet(f: File, k: InternalKey): Option<Entry> {
    SeekHit(f.entries, k)
  }

  datatype SaverState = KeyNotFound | KeyFound(value: Bytes) | KeyDeleted | KeyCorrupt

  function SaveValue(hit: Option<Entry>, u: UserKey): SaverState {
    match hit
    case None => KeyNotFound
    case Some(e) =>
      if !e.key.Parses() then KeyCorrupt
      else if e.key.user != u then KeyNotFound
      else if e.key.kind == VALUE then KeyFound(e.value)
      else KeyDeleted
  }

  function InsertNewestFirst(f: File, files: seq<File>): seq<File> {
    if files == [] || f.number > files[0].number then [f] + files
    else [files[0]] + InsertNewestFirst(f, files[1..])
  }

  function SortNewestFirst(files: seq<File>): seq<File> {
    if files == [] then [] else InsertNewestFirst(files[0], SortNewestFirst(files[1..]))
  }

  ghost predicate NewestFirst(files: seq<File>) {
    forall i, j :: 0 <= i < j < |files| ==> files[i].number >= files[j].number
  }

  lemma {:induction false} InsertKeepsNewestFirst(f: File, files: seq<File>)
    requires NewestFirst(files)
    ensures NewestFirst(InsertNewestFirst(f, files))
    ensures forall g :: g in InsertNewestFirst(f, files) <==> g == f || g in files
  {
    if files != [] && f.number <= files[0].number {
      InsertKeepsNewestFirst(f, files[1..]);
      var r := InsertNewestFirst(f, files[1..]);
      assert forall g :: g in files[1..] ==> g in files;
      forall i | 0 <= i < |r|
        ensures files[0].number >= r[i].number
      {
        assert r[i] in r;
      }
    }
  }

  lemma {:induction false} SortIsNewestFirst(files: seq<File>)
    ensures NewestFirst(SortNewestFirst(files))
    ensures forall f :: f in SortNewestFirst(files) <==> f in files
  {
    if files != [] {
      SortIsNewestFirst(files[1..]);
      InsertKeepsNewestFirst(files[0], SortNewestFirst(files[1..]));
    }
  }

  // No file of es holds anything a reader of u at s may see.
  ghost predicate Hidden(es: set<Entry>, u: UserKey, s: nat) {
    forall e :: e in es ==> !Visible(e, u, s)
  }

  // ----- Reading part by part -----

  ghost function Union(parts: seq<set<Entry>>): set<Entry> {
    set i, e | 0 <= i < |parts| && e in parts[i] :: e
  }

  /** What is found by asking one part after the other and stopping at the first that shows the key. */
  ghost function FirstRead(parts: seq<set<Entry>>, u: UserKey, s: nat): Option<Bytes> {
    if parts == [] then None
    else if Hidden(parts[0], u, s) then FirstRead(parts[1..], u, s)
    else Read(parts[0], u, s)
  }

  // Part i is the first to show u.
  ghost predicate FirstShown(parts: seq<set<Entry>>, u: UserKey, s: nat, i: nat) {
    i < |parts| && !Hidden(parts[i], u, s) && forall j :: 0 <= j < i ==> Hidden(parts[j], u, s)
  }

  lemma {:induction false} FirstReadIs(parts: seq<set<Entry>>, u: UserKey, s: nat, i: nat)
    requires FirstShown(parts, u, s, i)
    ensures FirstRead(parts, u, s) == Read(parts[i], u, s)
  {
    if i > 0 {
      assert Hidden(parts[0], u, s);
      assert forall j :: 0 <= j < i - 1 ==> parts[1..][j] == parts[j + 1];
      FirstReadIs(parts[1..], u, s, i - 1);
    }
  }

  lemma {:induction false} FirstReadNothing(parts: seq<set<Entry>>, u: UserKey, s: nat)
    requires forall i :: 0 <= i < |parts| ==> Hidden(parts[i], u, s)
    ensures FirstRead(parts, u, s) == None
  {
    if parts != [] {
      assert Hidden(parts[0], u, s);
      assert forall j :: 0 <= j < |parts| - 1 ==> parts[1..][j] == parts[j + 1];
      FirstReadNothing(parts[1..], u, s);
    }
  }

  lemma {:induction false} SomePartShows(parts: seq<set<Entry>>, u: UserKey, s: nat, k: nat) returns (i: nat)
    requires k < |parts| && !Hidden(parts[k], u, s)
    ensures FirstShown(parts, u, s, i) && i <= k
  {
    if j :| 0 <= j < k && !Hidden(parts[j], u, s) {
      i := SomePartShows(parts, u, s, j);
    } else {
      i := k;
    }
  }

  // What an entry says of its key.
  function ValueOf(e: Entry): Option<Bytes> {
    if e.key.kind == VALUE then Some(e.value) else None
  }

  // The first part to show u says something else than the newest entry of all.
  ghost predicate Masked(parts: seq<set<Entry>>, u: UserKey, s: nat) {
    exists i, x, y :: MaskedAt(parts, u, s, i, x, y)
  }

  ghost predicate MaskedAt(parts: seq<set<Entry>>, u: UserKey, s: nat, i: nat, x: Entry, y: Entry) {
    && FirstShown(parts, u, s, i) && IsNewest(parts[i], u, s, x) && IsNewest(Union(parts), u, s, y)
    && ValueOf(x) != ValueOf(y)
  }

  /** Stopping at the first part that shows a key is right exactly when that does not mask another answer. */
  lemma FirstReadIsRightExactly(parts: seq<set<Entry>>, u: UserKey, s: nat)
    requires UniqueSequences(Union(parts))
    ensures FirstRead(parts, u, s) == Read(Union(parts), u, s) <==> !Masked(parts, u, s)
  {
    if k :| 0 <= k < |parts| && !Hidden(parts[k], u, s) {
      var i := SomePartShows(parts, u, s, k);
      FirstReadIs(parts, u, s, i);
      var x, y := NewestOfBoth(parts, u, s, i);
      MaskedByThese(parts, u, s, i, x, y);
    } else {
      FirstReadNothing(parts, u, s);
      ReadNothing(Union(parts), u, s);
      assert forall i: nat :: !FirstShown(parts, u, s, i);
    }
  }

  lemma NewestOfBoth(parts: seq<set<Entry>>, u: UserKey, s: nat, i: nat) returns (x: Entry, y: Entry)
    requires UniqueSequences(Union(parts)) && FirstShown(parts, u, s, i)
    ensures IsNewest(parts[i], u, s, x) && IsNewest(Union(parts), u, s, y)
    ensures Read(parts[i], u, s) == ValueOf(x) && Read(Union(parts), u, s) == ValueOf(y)
  {
    var c :| c in parts[i] && Visible(c, u, s);
    x := NewestExists(parts[i], u, s, c);
    assert parts[i] <= Union(parts);
    y := NewestExists(Union(parts), u, s, c);
    ReadNewest(parts[i], u, s, x);
    ReadNewest(Union(parts), u, s, y);
  }

  lemma MaskedByThese(parts: seq<set<Entry>>, u: UserKey, s: nat, i: nat, x: Entry, y: Entry)
    requires UniqueSequences(Union(parts)) && FirstShown(parts, u, s, i)
    requires IsNewest(parts[i], u, s, x) && IsNewest(Union(parts), u, s, y)
    ensures Masked(parts, u, s) <==> ValueOf(x) != ValueOf(y)
  {
    assert parts[i] <= Union(parts);
    if ValueOf(x) != ValueOf(y) {
      assert MaskedAt(parts, u, s, i, x, y);
    }
    forall i2: nat, x2, y2 | MaskedAt(parts, u, s, i2, x2, y2)
      ensures x2 == x && y2 == y
    {
      FirstShownIsOne(parts, u, s, i, i2);
      assert x2.key.sequence == x.key.sequence && y2.key.sequence == y.key.sequence;
    }
  }

  lemma FirstShownIsOne(parts: seq<set<Entry>>, u: UserKey, s: nat, i: nat, j: nat)
    requires FirstShown(parts, u, s, i) && FirstShown(parts, u, s, j)
    ensures i == j
  {
  }

  // Parts that are newer than those after them mask nothing.
  lemma NewerPartsMaskNothing(parts: seq<set<Entry>>, u: UserKey, s: nat)
    requires UniqueSequences(Union(parts))
    requires forall i, j :: 0 <= i < j < |parts| ==> Newer(parts[i], parts[j])
    ensures !Masked(parts, u, s)
  {
    forall i: nat, x, y | FirstShown(parts, u, s, i) && IsNewest(parts[i], u, s, x) && IsNewest(Union(parts), u, s, y)
      ensures x == y
    {
      var j :| 0 <= j < |parts| && y in parts[j];
      assert x in Union(parts);
      NewestIsInFirst(parts, u, s, i, x, y, j);
    }
  }

  lemma NewestIsInFirst(parts: seq<set<Entry>>, u: UserKey, s: nat, i: nat, x: Entry, y: Entry, j: nat)
    requires FirstShown(parts, u, s, i) && IsNewest(parts[i], u, s, x) && x in Union(parts) && IsNewest(Union(parts), u, s, y)
    requires j < |parts| && y in parts[j] && (i < j ==> Newer(parts[i], parts[j]))
    ensures j == i
  {
    assert !Hidden(parts[j], u, s);
  }

  // ----- Lookups in a level -----

  // A lookup in a sorted run finds its newest visible entry e, or shows that nothing is visible.
  lemma SeekHitIsExact(es: seq<Entry>, u: UserKey, s: SequenceNumber) returns (e: Entry)
    requires Sorted(es)
    ensures
      match SaveValue(SeekHit(es, LookupKey(u, s)), u)
      case KeyCorrupt => !Intact(Elements(es))
      case KeyNotFound => Hidden(Elements(es), u, s)
      case KeyFound(value) => IsNewest(Elements(es), u, s, e) && e.key.kind == VALUE && e.value == value
      case KeyDeleted => IsNewest(Elements(es), u, s, e) && e.key.kind == DELETION
  {
    SeekFindsNewest(es, u, s);
    var i := FirstAtOrAfter(es, LookupKey(u, s));
    e := if i < |es| then es[i] else Entry(LookupKey(u, s), []);
    assert i < |es| ==> e in es;
  }

  // The newest entry of a file is the newest of its level if the others hold nothing newer.
  lemma HitIsNewest(files: seq<File>, f: File, e: Entry, u: UserKey, s: SequenceNumber)
    requires f in files && IsNewest(Elements(f.entries), u, s, e)
    requires forall g :: g in files && g != f ==>
      || Hidden(Elements(g.entries), u, s)
      || Newer(Elements(f.entries), Elements(g.entries))
    ensures IsNewest(LevelContents(files), u, s, e)
  {
    forall x | x in LevelContents(files) && Visible(x, u, s)
      ensures x.key.sequence <= e.key.sequence
    {
      var g :| g in files && x in g.entries;
      assert x in Elements(g.entries);
    }
  }

  lemma LaterFilesAreOlder(f: File, g: File)
    requires UniqueSequences(Elements(f.entries) + Elements(g.entries))
    requires f.Valid() && g.Valid()
    requires Before(f.largest, g.smallest)
    ensures Newer(Elements(f.entries), Elements(g.entries))
  {
    forall x, y | x in f.entries && y in g.entries
      ensures Before(x.key, y.key)
    {
      EntriesAreInRange(f, x);
      EntriesAreInRange(g, y);
    }
  }

  // files is what a lookup of u at s must search in a level: all that may hold u in level
  // 0, newest first; in a deeper level at most one, with only older entries for u after it.
  ghost predicate SearchPlan(v: Version, level: nat, files: seq<File>, u: UserKey, s: SequenceNumber)
    requires level < NUM_LEVELS
  {
    && (forall f :: f in files ==> f in v[level])
    && (level == 0 ==> NewestFirst(files))
    && (level > 0 ==> |files| <= 1)
    && (level > 0 && files != [] ==> !Before(files[0].largest, LookupKey(u, s)))
    && (forall f :: f in v[level] && f !in files ==>
          || Hidden(Elements(f.entries), u, s)
          || (level > 0 && files != [] && Before(files[0].largest, f.smallest)))
  }

  method FilesToSearch(v: Version, level: nat, u: UserKey, s: SequenceNumber) returns (files: seq<File>)
    requires Ordered(v) && level < NUM_LEVELS
    ensures SearchPlan(v, level, files, u, s)
  {
    if level == 0 {
      var tmp := [];
      for i := 0 to |v[0]|
        invariant forall f :: f in tmp <==> f in v[0][..i] && f.Covers(u)
      {
        if v[0][i].Covers(u) {
          tmp := tmp + [v[0][i]];
        }
      }
      files := SortNewestFirst(tmp);
      SortIsNewestFirst(tmp);
      forall f, e | f in v[0] && !f.Covers(u) && e in f.entries
        ensures !Visible(e, u, s)
      {
        EntriesAreInRange(f, e);
      }
      return;
    }
    var key := LookupKey(u, s);
    var index := FindFile(v[level], key);
    forall f, e | f in v[level] && e in f.entries && (Before(f.largest, key) || u < f.smallest.user)
      ensures !Visible(e, u, s)
    {
      EntriesAreInRange(f, e);
    }
    if index >= |v[level]| {
      return [];
    }
    forall i | index < i < |v[level]|
      ensures Before(v[level][index].largest, v[level][i].smallest)
      ensures u < v[level][index].smallest.user ==> u < v[level][i].smallest.user
    {
      EntriesAreInRange(v[level][index], v[level][index].entries[0]);
    }
    if u < v[level][index].smallest.user {
      return [];
    }
    return [v[level][index]];
  }

  // After a lookup has missed in the files it searches, the whole level holds nothing visible.
  lemma MissHidesLevel(v: Version, level: nat, files: seq<File>, u: UserKey, s: SequenceNumber)
    requires Ordered(v) && level < NUM_LEVELS && SearchPlan(v, level, files, u, s)
    requires forall f :: f in files ==> SaveValue(TableGet(f, LookupKey(u, s)), u) == KeyNotFound
    ensures Hidden(LevelContents(v[level]), u, s)
  {
    forall f, e | f in v[level] && e in f.entries
      ensures !Visible(e, u, s)
    {
      if f in files {
        var _ := SeekHitIsExact(f.entries, u, s);
        assert e in Elements(f.entries);
      } else if level > 0 && files != [] && Before(files[0].largest, f.smallest) {
        var first := files[0];
        assert first in files && first in v[level];
        assert first.entries[|first.entries| - 1].key == first.largest;
        var i := FirstAtOrAfter(first.entries, LookupKey(u, s));
        EntriesAreInRange(first, first.entries[i]);
        EntriesAreInRange(f, e);
      } else {
        assert e in Elements(f.entries);
      }
    }
  }

  // Nothing beside the file that was hit can be newer for u.
  lemma OthersAreNotNewer(v: Version, level: nat, files: seq<File>, i: nat, g: File, u: UserKey, s: SequenceNumber)
    requires level < NUM_LEVELS && SearchPlan(v, level, files, u, s)
    requires level == 0 ==> NewerByNumber(v[0])
    requires i < |files| && g in v[level] && g != files[i]
    requires files[i].Valid() && g.Valid() && UniqueSequences(Elements(files[i].entries) + Elements(g.entries))
    requires forall j :: 0 <= j < i ==> SaveValue(TableGet(files[j], LookupKey(u, s)), u) == KeyNotFound
    ensures Hidden(Elements(g.entries), u, s) || Newer(Elements(files[i].entries), Elements(g.entries))
  {
    assert files[i] in files && files[i] in v[level];
    if g in files {
      var j :| 0 <= j < |files| && files[j] == g;
      if j < i {
        MissHidesFile(g, u, s);
      } else {
        LaterInPlanIsOlder(v[0], files, i, j);
      }
    } else if !Hidden(Elements(g.entries), u, s) {
      LaterFilesAreOlder(files[i], g);
    }
  }

  lemma MissHidesFile(g: File, u: UserKey, s: SequenceNumber)
    requires g.Valid() && SaveValue(TableGet(g, LookupKey(u, s)), u) == KeyNotFound
    ensures Hidden(Elements(g.entries), u, s)
  {
    var _ := SeekHitIsExact(g.entries, u, s);
  }

  lemma LaterInPlanIsOlder(all: seq<File>, files: seq<File>, i: nat, j: nat)
    requires NewerByNumber(all) && NewestFirst(files) && i < j < |files|
    requires files[i] in all && files[j] in all && files[i] != files[j]
    ensures Newer(Elements(files[i].entries), Elements(files[j].entries))
  {
    assert files[i].number > files[j].number;
  }

  lemma NoOtherIsNewer(v: Version, level: nat, files: seq<File>, i: nat, u: UserKey, s: SequenceNumber)
    requires Searchable(v) && UniqueSequences(Contents(v))
    requires level < NUM_LEVELS && SearchPlan(v, level, files, u, s) && i < |files|
    requires forall j :: 0 <= j < i ==> SaveValue(TableGet(files[j], LookupKey(u, s)), u) == KeyNotFound
    ensures forall g :: g in v[level] && g != files[i] ==>
      || Hidden(Elements(g.entries), u, s)
      || Newer(Elements(files[i].entries), Elements(g.entries))
  {
    assert files[i] in files;
    InContents(v, level, files[i]);
    forall g | g in v[level] && g != files[i]
      ensures Hidden(Elements(g.entries), u, s) || Newer(Elements(files[i].entries), Elements(g.entries))
    {
      InContents(v, level, g);
      OthersAreNotNewer(v, level, files, i, g, u, s);
    }
  }

  // What the state of a lookup in one level says about a read of the level.
  ghost predicate Decides(v: Version, level: nat, u: UserKey, s: SequenceNumber, state: SaverState)
    requires level < NUM_LEVELS
  {
    var es := LevelContents(v[level]);
    match state
    case KeyNotFound => Hidden(es, u, s)
    case KeyFound(value) => !Hidden(es, u, s) && Read(es, u, s) == Some(value)
    case KeyDeleted => !Hidden(es, u, s) && Read(es, u, s) == None
    case KeyCorrupt => !Intact(Contents(v))
  }

  lemma HitDecides(v: Version, level: nat, files: seq<File>, i: nat, u: UserKey, s: SequenceNumber)
    requires Searchable(v) && UniqueSequences(Contents(v))
    requires level < NUM_LEVELS && SearchPlan(v, level, files, u, s) && i < |files|
    requires forall j :: 0 <= j < i ==> SaveValue(TableGet(files[j], LookupKey(u, s)), u) == KeyNotFound
    requires SaveValue(TableGet(files[i], LookupKey(u, s)), u) != KeyNotFound
    ensures Decides(v, level, u, s, SaveValue(TableGet(files[i], LookupKey(u, s)), u))
  {
    var f := files[i];
    assert f in files;
    InContents(v, level, f);
    var e := SeekHitIsExact(f.entries, u, s);
    var state := SaveValue(TableGet(f, LookupKey(u, s)), u);
    if state.KeyFound? || state.KeyDeleted? {
      NoOtherIsNewer(v, level, files, i, u, s);
      HitIsNewest(v[level], f, e, u, s);
      ReadNewest(LevelContents(v[level]), u, s, e);
    }
  }

  // Looks u up in each file in turn, stopping at the first hit.
  method SearchFiles(files: seq<File>, u: UserKey, s: SequenceNumber) returns (state: SaverState, i: nat)
    ensures i <= |files|
    ensures forall j :: 0 <= j < i ==> SaveValue(TableGet(files[j], LookupKey(u, s)), u) == KeyNotFound
    ensures if i < |files| then state == SaveValue(TableGet(files[i], LookupKey(u, s)), u) && state != KeyNotFound
            else state == KeyNotFound
  {
    i := 0;
    while i < |files|
      invariant i <= |files|
      invariant forall j :: 0 <= j < i ==> SaveValue(TableGet(files[j], LookupKey(u, s)), u) == KeyNotFound
    {
      state := SaveValue(TableGet(files[i], LookupKey(u, s)), u);
      if state != KeyNotFound {
        return;
      }
      i := i + 1;
    }
    state := KeyNotFound;
  }

  method SearchLevel(v: Version, level: nat, u: UserKey, s: SequenceNumber) returns (state: SaverState)
    requires Searchable(v) && UniqueSequences(Contents(v))
    requires level < NUM_LEVELS
    ensures Decides(v, level, u, s, state)
  {
    var files := FilesToSearch(v, level, u, s);
    var i;
    state, i := SearchFiles(files, u, s);
    if i < |files| {
      HitDecides(v, level, files, i, u, s);
    } else {
      MissHidesLevel(v, level, files, u, s);
    }
  }

  ghost function Levels(v: Version): (parts: seq<set<Entry>>)
    ensures |parts| == NUM_LEVELS && forall l :: 0 <= l < NUM_LEVELS ==> parts[l] == LevelContents(v[l])
    ensures Union(parts) == Contents(v)
  {
    seq(NUM_LEVELS, l requires 0 <= l < NUM_LEVELS => LevelContents(v[l]))
  }

  /** In a layered version the first level to show a key has its newest visible entry. */
  lemma LayeredReadsRight(v: Version, u: UserKey, s: nat)
    requires UniqueSequences(Contents(v))
    ensures Layered(v) ==> FirstRead(Levels(v), u, s) == Read(Contents(v), u, s)
  {
    if Layered(v) {
      forall i, j | 0 <= i < j < NUM_LEVELS
        ensures Newer(Levels(v)[i], Levels(v)[j])
      {
        assert Newer(LevelContents(v[i]), LevelContents(v[j]));
      }
      NewerPartsMaskNothing(Levels(v), u, s);
      FirstReadIsRightExactly(Levels(v), u, s);
    }
  }

  /** The answer of a lookup: that of the first level that shows the key, and of a layered version that of its
      newest visible entry; an entry that does not parse is all that may come in between. */
  ghost predicate Answers(v: Version, u: UserKey, s: SequenceNumber, r: GetResult) {
    && (r == Corruption ==> !Intact(Contents(v)))
    && (r != Corruption ==> r == Answer(FirstRead(Levels(v), u, s)))
    && (r != Corruption && Layered(v) ==> r == Answer(Read(Contents(v), u, s)))
  }

  function ResultOf(state: SaverState): GetResult {
    match state
    case KeyFound(value) => Found(value)
    case KeyCorrupt => Corruption
    case _ => NotFound
  }

  lemma LevelAnswers(v: Version, level: nat, u: UserKey, s: SequenceNumber, state: SaverState)
    requires UniqueSequences(Contents(v))
    requires level < NUM_LEVELS && Decides(v, level, u, s, state) && state != KeyNotFound
    requires forall m :: 0 <= m < level ==> Hidden(LevelContents(v[m]), u, s)
    ensures Answers(v, u, s, ResultOf(state))
  {
    LayeredReadsRight(v, u, s);
    if state != KeyCorrupt {
      FirstReadIs(Levels(v), u, s, level);
    }
  }

  lemma NoLevelAnswers(v: Version, u: UserKey, s: SequenceNumber)
    requires UniqueSequences(Contents(v))
    requires forall m :: 0 <= m < NUM_LEVELS ==> Hidden(LevelContents(v[m]), u, s)
    ensures Answers(v, u, s, NotFound)
  {
    LayeredReadsRight(v, u, s);
    FirstReadNothing(Levels(v), u, s);
  }

  /** Level by level, newest file first in level 0, stopping at the first hit. */
  method Get(v: Version, u: UserKey, s: SequenceNumber) returns (r: GetResult)
    requires Searchable(v) && UniqueSequences(Contents(v))
    ensures Answers(v, u, s, r)
  {
    for level := 0 to NUM_LEVELS
      invariant forall m :: 0 <= m < level ==> Hidden(LevelContents(v[m]), u, s)
    {
      var state := SearchLevel(v, level, u, s);
      if state != KeyNotFound {
        LevelAnswers(v, level, u, s, state);
        return ResultOf(state);
      }
    }
    NoLevelAnswers(v, u, s);
    return NotFound;
  }
}
