/** Gaps between the inputs of a compaction, into which a flush could put a table while it is under way.
    A compaction that grew from one file has none. */
module InputGaps {
  import opened Primitives
  import opened InternalKeys
  import opened Versions
  import opened LevelEdits
  import opened Compactions
  import opened CompactionSafety

  // Every user key of the range is covered by some file.
  ghost predicate NoGap(files: seq<File>, lo: UserKey, hi: UserKey) {
    forall u: UserKey :: lo <= u <= hi ==> Covered(files, u)
  }

  ghost predicate Covered(files: seq<File>, u: UserKey) {
    exists f :: f in files && f.Covers(u)
  }

  // Files that overlap a range without gaps leave none.
  lemma AroundHasNoGap(files: seq<File>, start: UserKey, limit: UserKey, lo: UserKey, hi: UserKey)
    requires NoGap(files, start, limit) && Hull(files, lo, hi)
    requires forall f :: f in files ==> Overlaps(f, Some(start), Some(limit))
    ensures NoGap(files, lo, hi)
  {
    forall u: UserKey | lo <= u <= hi
      ensures Covered(files, u)
    {
      if u < start {
        var f :| f in files && f.smallest.user == lo;
        assert f.Covers(u);
      } else if u > limit {
        var f :| f in files && f.largest.user == hi;
        assert f.Covers(u);
      }
    }
  }

  lemma OneFileHasNoGap(f: File, files: seq<File>)
    requires f in files
    ensures NoGap(files, f.smallest.user, f.largest.user)
  {
    forall u: UserKey | f.smallest.user <= u <= f.largest.user
      ensures Covered(files, u)
    {
      assert f.Covers(u);
    }
  }

  lemma MoreFilesHaveNoGap(files: seq<File>, more: seq<File>, lo: UserKey, hi: UserKey)
    requires NoGap(files, lo, hi) && forall f :: f in files ==> f in more
    ensures NoGap(more, lo, hi)
  {
    forall u: UserKey | lo <= u <= hi
      ensures Covered(more, u)
    {
      assert Covered(files, u);
    }
  }

  // A closed range may end at a gap.
  lemma EndsAtGap(files: seq<File>, lo: Option<UserKey>, hi: Option<UserKey>, u: UserKey)
    requires ValidFiles(files) && Closed(files, lo, hi) && !Covered(OverlappingFiles(files, lo, hi), u)
    requires (lo.Some? ==> lo.value <= u) && (hi.Some? ==> u <= hi.value)
    ensures Closed(files, lo, Some(u)) && Closed(files, Some(u), hi)
  {
    OverlappingFilesMembers(files, lo, hi);
    forall i | 0 <= i < |files|
      ensures Overlaps(files[i], lo, Some(u)) ==> FitsIn(files[i], lo, Some(u))
      ensures Overlaps(files[i], Some(u), hi) ==> FitsIn(files[i], Some(u), hi)
    {
      EntriesAreInRange(files[i], files[i].entries[0]);
      assert files[i] in files && (files[i].Covers(u) ==> files[i] !in OverlappingFiles(files, lo, hi));
    }
  }

  // Level 0: what is above the range is covered as far as the files taken in reach; else the range could end before.
  lemma ReachedUpIsCovered(files: seq<File>, begin: UserKey, end: UserKey, lo: Option<UserKey>, hi: Option<UserKey>,
                           inputs: seq<File>, f: File, u: UserKey)
    requires ValidFiles(files) && LeastRange(files, 0, Some(begin), Some(end), lo, hi) && inputs == OverlappingFiles(files, lo, hi)
    requires f in inputs && begin <= end < u <= f.largest.user
    ensures Covered(inputs, u)
  {
    TakenFits(files, lo, hi, f);
    if !Covered(inputs, u) {
      EndsAtGap(files, lo, hi, u);
    }
  }

  // And the same below.
  lemma ReachedDownIsCovered(files: seq<File>, begin: UserKey, end: UserKey, lo: Option<UserKey>, hi: Option<UserKey>,
                             inputs: seq<File>, f: File, u: UserKey)
    requires ValidFiles(files) && LeastRange(files, 0, Some(begin), Some(end), lo, hi) && inputs == OverlappingFiles(files, lo, hi)
    requires f in inputs && f.smallest.user <= u < begin <= end
    ensures Covered(inputs, u)
  {
    TakenFits(files, lo, hi, f);
    if !Covered(inputs, u) {
      EndsAtGap(files, lo, hi, u);
    }
  }

  lemma TakenFits(files: seq<File>, lo: Option<UserKey>, hi: Option<UserKey>, f: File)
    requires ValidFiles(files) && Closed(files, lo, hi) && f in OverlappingFiles(files, lo, hi)
    ensures FitsIn(f, lo, hi) && f.smallest.user <= f.largest.user
  {
    OverlappingFilesMembers(files, lo, hi);
    var k :| 0 <= k < |files| && files[k] == f;
    EntriesAreInRange(f, f.entries[0]);
  }

  // What there is of a level for a range without gaps leaves none.
  lemma AllForHasNoGap(files: seq<File>, level: nat, start: UserKey, limit: UserKey, inputs: seq<File>, others: seq<File>,
                       lo: UserKey, hi: UserKey)
    requires ValidFiles(files) && AllFor(files, level, start, limit, inputs) && start <= limit
    requires NoGap(inputs + others, start, limit) && Spans(others, start, limit) && Hull(inputs + others, lo, hi)
    ensures NoGap(inputs + others, lo, hi)
  {
    var a, b :| LeastRange(files, level, Some(start), Some(limit), a, b) && inputs == OverlappingFiles(files, a, b);
    OverlappingFilesMembers(files, a, b);
    forall u: UserKey | lo <= u <= hi
      ensures Covered(inputs + others, u)
    {
      if u > limit {
        var f :| f in inputs + others && f.largest.user == hi;
        if level == 0 {
          ReachedUpIsCovered(files, start, limit, a, b, inputs, f, u);
          CoveredByMore(inputs, others, u);
        } else {
          assert f in inputs && f.Covers(u);
        }
      } else if u < start {
        var f :| f in inputs + others && f.smallest.user == lo;
        if level == 0 {
          ReachedDownIsCovered(files, start, limit, a, b, inputs, f, u);
          CoveredByMore(inputs, others, u);
        } else {
          assert f in inputs && f.Covers(u);
        }
      }
    }
  }

  lemma CoveredByMore(files: seq<File>, others: seq<File>, u: UserKey)
    requires Covered(files, u)
    ensures Covered(files + others, u)
  {
    var f :| f in files && f.Covers(u);
    assert f in files + others;
  }

  // What a compaction starts from for one file: it, and in level 0 all that must come with it.
  ghost predicate SeedOf(v: Version, level: nat, f: File, seed: seq<File>)
    requires level < NUM_LEVELS
  {
    f in v[level] && if level == 0 then AllFor(v[0], 0, f.smallest.user, f.largest.user, seed) else seed == [f]
  }

  lemma SeedHoldsFile(v: Version, level: nat, f: File, seed: seq<File>)
    requires level < NUM_LEVELS && ValidFiles(v[level]) && SeedOf(v, level, f, seed)
    ensures f in seed && f.Valid() && f.smallest.user <= f.largest.user && forall g :: g in seed ==> g in v[level]
  {
    assert f.Valid();
    EntriesAreInRange(f, f.entries[0]);
    if level == 0 {
      var lo, hi :| LeastRange(v[0], 0, Some(f.smallest.user), Some(f.largest.user), lo, hi) && seed == OverlappingFiles(v[0], lo, hi);
      OverlappingFilesMembers(v[0], lo, hi);
    }
  }

  lemma SeedHasNoGap(v: Version, level: nat, f: File, seed: seq<File>, a: UserKey, b: UserKey)
    requires level < NUM_LEVELS && ValidFiles(v[level]) && SeedOf(v, level, f, seed) && Hull(seed, a, b)
    ensures NoGap(seed, a, b)
  {
    SeedHoldsFile(v, level, f, seed);
    OneFileHasNoGap(f, seed);
    if level == 0 {
      assert seed + [] == seed;
      AllForHasNoGap(v[0], 0, f.smallest.user, f.largest.user, seed, [], a, b);
    }
  }

  /** The inputs chosen for one file: what a compaction starts from, what overlaps that in the next level, and
      perhaps all of its own level for the range of these.  Between their ends there is no gap. */
  lemma OneSeedHasNoGap(v: Version, level: nat, f: File, seed: seq<File>, a: UserKey, b: UserKey, inputs1: seq<File>,
                        start: UserKey, limit: UserKey, inputs0: seq<File>, lo: UserKey, hi: UserKey)
    requires level + 1 < NUM_LEVELS && ValidFiles(v[level]) && SeedOf(v, level, f, seed) && Hull(seed, a, b)
    requires inputs1 == OverlappingFiles(v[level + 1], Some(a), Some(b)) && Hull(seed + inputs1, start, limit)
    requires inputs0 == seed || (AllFor(v[level], level, start, limit, inputs0) && forall g :: g in seed ==> g in inputs0)
    requires Hull(inputs0 + inputs1, lo, hi)
    ensures NoGap(inputs0 + inputs1, lo, hi)
  {
    SeedHasNoGap(v, level, f, seed, a, b);
    SeedHoldsFile(v, level, f, seed);
    OverlappingFilesMembers(v[level + 1], Some(a), Some(b));
    MoreFilesHaveNoGap(seed, seed + inputs1, a, b);
    SeedOverlapsItself(v, level, seed, a, b);
    AroundHasNoGap(seed + inputs1, a, b, start, limit);
    if inputs0 != seed {
      MoreFilesHaveNoGap(seed + inputs1, inputs0 + inputs1, start, limit);
      assert Spans(inputs1, start, limit);
      AllForHasNoGap(v[level], level, start, limit, inputs0, inputs1, lo, hi);
    } else {
      MoreFilesHaveNoGap(seed + inputs1, inputs0 + inputs1, start, limit);
      HullIsOne(seed + inputs1, start, limit, lo, hi);
    }
  }

  lemma HullIsOne(files: seq<File>, a: UserKey, b: UserKey, lo: UserKey, hi: UserKey)
    requires Hull(files, a, b) && Hull(files, lo, hi)
    ensures a == lo && b == hi
  {
  }

  lemma SeedOverlapsItself(v: Version, level: nat, seed: seq<File>, a: UserKey, b: UserKey)
    requires level < NUM_LEVELS && ValidFiles(v[level]) && Spans(seed, a, b) && forall g :: g in seed ==> g in v[level]
    ensures forall g :: g in seed ==> Overlaps(g, Some(a), Some(b))
  {
    forall g | g in seed
      ensures Overlaps(g, Some(a), Some(b))
    {
      assert g.Valid();
      EntriesAreInRange(g, g.entries[0]);
    }
  }

  /** A table that overlaps none of the inputs, and does not fit between them, lies on one side of them all. */
  lemma OutsideIsOnOneSide(f: File, inputs0: seq<File>, inputs1: seq<File>, lo: UserKey, hi: UserKey)
    requires f.Valid() && ValidFiles(inputs0) && ValidFiles(inputs1)
    requires Hull(inputs0 + inputs1, lo, hi) && NoGap(inputs0 + inputs1, lo, hi)
    requires forall g :: g in inputs0 + inputs1 ==> !Overlaps(g, Some(f.smallest.user), Some(f.largest.user))
    ensures OnOneSide(f, InputEntries(inputs0, inputs1))
  {
    EntriesAreInRange(f, f.entries[0]);
    assert !Covered(inputs0 + inputs1, f.smallest.user);
    var first :| first in inputs0 + inputs1 && first.smallest.user == lo;
    assert first in inputs0 || first in inputs1;
    EntriesAreInRange(first, first.entries[0]);
    assert f.largest.user < lo || hi < f.smallest.user;
    forall g, x | g in inputs0 + inputs1 && x in g.entries
      ensures lo <= x.key.user <= hi
    {
      EntriesAreInRange(g, x);
    }
    forall x | x in InputEntries(inputs0, inputs1)
      ensures lo <= x.key.user <= hi
    {
      var g :| (g in inputs0 || g in inputs1) && x in g.entries;
      assert g in inputs0 + inputs1;
    }
  }

  lemma {:induction false} HullExists(files: seq<File>) returns (lo: UserKey, hi: UserKey)
    requires files != []
    ensures Hull(files, lo, hi)
  {
    var f := files[|files| - 1];
    lo, hi := f.smallest.user, f.largest.user;
    if |files| > 1 {
      var front := files[..|files| - 1];
      var a, b := HullExists(front);
      assert forall g :: g in files <==> g in front || g == f;
      lo, hi := if a < lo then a else lo, if hi < b then b else hi;
    }
  }

  /** The inputs chosen for one file leave no gap. */
  lemma ChosenHasNoGap(v: Version, level: nat, f: File, seed: seq<File>, inputs0: seq<File>, inputs1: seq<File>, expanded: seq<File>,
                       lo: UserKey, hi: UserKey)
    requires level + 1 < NUM_LEVELS && ValidFiles(v[level]) && SeedOf(v, level, f, seed)
    requires Chosen(v, level, seed, inputs0, inputs1, expanded) && Hull(inputs0 + inputs1, lo, hi)
    ensures NoGap(inputs0 + inputs1, lo, hi)
  {
    SeedHoldsFile(v, level, f, seed);
    var a, b := HullExists(seed);
    var start, limit := HullExists(seed + inputs1);
    GrownOrNot(v, level, seed, inputs0, inputs1, expanded, start, limit);
    OneSeedHasNoGap(v, level, f, seed, a, b, inputs1, start, limit, inputs0, lo, hi);
  }

  lemma GrownOrNot(v: Version, level: nat, seed: seq<File>, inputs0: seq<File>, inputs1: seq<File>, expanded: seq<File>,
                   start: UserKey, limit: UserKey)
    requires level + 1 < NUM_LEVELS && Chosen(v, level, seed, inputs0, inputs1, expanded) && Hull(seed + inputs1, start, limit)
    ensures inputs0 == seed || (AllFor(v[level], level, start, limit, inputs0) && forall g :: g in seed ==> g in inputs0)
  {
  }

  /** So while a compaction that grew from one file is under way, a flush into the level of the outputs comes
      between no two inputs, whatever else was flushed since they were chosen. */
  lemma FlushStaysAside(v: Version, level: nat, f: File, seed: seq<File>, inputs0: seq<File>, inputs1: seq<File>, expanded: seq<File>,
                        w: Version, t: File)
    requires level + 1 < NUM_LEVELS && ValidFiles(v[level]) && SeedOf(v, level, f, seed)
    requires Chosen(v, level, seed, inputs0, inputs1, expanded)
    requires Ordered(w) && (forall g :: g in inputs0 ==> g in w[level]) && (forall g :: g in inputs1 ==> g in w[level + 1])
    requires t.Valid() && !LevelOverlaps(w, 0, Some(t.smallest.user), Some(t.largest.user))
    requires forall l :: 0 <= l <= level ==> MaySink(w, l, t.smallest.user, t.largest.user)
    ensures OnOneSide(t, InputEntries(inputs0, inputs1))
  {
    SeedHoldsFile(v, level, f, seed);
    InputsAreClear(w, level, t, inputs0, inputs1);
    assert f in inputs0 + inputs1;
    var lo, hi := HullExists(inputs0 + inputs1);
    ChosenHasNoGap(v, level, f, seed, inputs0, inputs1, expanded, lo, hi);
    OutsideIsOnOneSide(t, inputs0, inputs1, lo, hi);
  }

  lemma InputsAreClear(v: Version, level: nat, f: File, inputs0: seq<File>, inputs1: seq<File>)
    requires Ordered(v) && level + 1 < NUM_LEVELS
    requires !LevelOverlaps(v, 0, Some(f.smallest.user), Some(f.largest.user))
    requires forall l :: 0 <= l <= level ==> MaySink(v, l, f.smallest.user, f.largest.user)
    requires (forall g :: g in inputs0 ==> g in v[level]) && forall g :: g in inputs1 ==> g in v[level + 1]
    ensures ValidFiles(inputs0) && ValidFiles(inputs1)
    ensures forall g :: g in inputs0 + inputs1 ==> !Overlaps(g, Some(f.smallest.user), Some(f.largest.user))
  {
    assert MaySink(v, level, f.smallest.user, f.largest.user);
    assert level > 0 ==> MaySink(v, level - 1, f.smallest.user, f.largest.user);
    forall i | 0 <= i < |inputs0|
      ensures inputs0[i].Valid()
    {
      assert inputs0[i] in inputs0;
    }
    forall i | 0 <= i < |inputs1|
      ensures inputs1[i].Valid()
    {
      assert inputs1[i] in inputs1;
    }
  }
}
