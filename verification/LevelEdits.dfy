/** Adding tables to a version and taking them out, and what keeps a version layered. */
module LevelEdits {
  import opened Primitives
  import opened InternalKeys
  import opened Versions

  // The order in which the files of a level are listed.
  predicate BySmallest(f: File, g: File) {
    || Before(f.smallest, g.smallest)
    || (f.smallest == g.smallest && f.number < g.number)
  }

  function InsertFile(files: seq<File>, f: File): seq<File> {
    if files == [] || BySmallest(f, files[0]) then [f] + files
    else [files[0]] + InsertFile(files[1..], f)
  }

  function InsertFiles(files: seq<File>, more: seq<File>): seq<File> {
    if more == [] then files else InsertFile(InsertFiles(files, more[..|more| - 1]), more[|more| - 1])
  }

  function Without(files: seq<File>, gone: seq<File>): seq<File> {
    if files == [] then []
    else if files[0] in gone then Without(files[1..], gone)
    else [files[0]] + Without(files[1..], gone)
  }

  lemma {:induction false} InsertFileMembers(files: seq<File>, f: File)
    ensures forall g :: g in InsertFile(files, f) <==> g == f || g in files
  {
    if files != [] && !BySmallest(f, files[0]) {
      InsertFileMembers(files[1..], f);
      assert files == [files[0]] + files[1..];
    }
  }

  lemma {:induction false} InsertFilesMembers(files: seq<File>, more: seq<File>)
    ensures forall g :: g in InsertFiles(files, more) <==> g in files || g in more
  {
    if more != [] {
      InsertFilesMembers(files, more[..|more| - 1]);
      InsertFileMembers(InsertFiles(files, more[..|more| - 1]), more[|more| - 1]);
      assert more == more[..|more| - 1] + [more[|more| - 1]];
    }
  }

  lemma {:induction false} WithoutMembers(files: seq<File>, gone: seq<File>)
    ensures forall g :: g in Without(files, gone) <==> g in files && g !in gone
  {
    if files != [] {
      WithoutMembers(files[1..], gone);
      assert files == [files[0]] + files[1..];
    }
  }

  lemma InsertFileKeepsValid(files: seq<File>, f: File)
    requires ValidFiles(files) && f.Valid()
    ensures ValidFiles(InsertFile(files, f))
  {
    InsertFileMembers(files, f);
    var r := InsertFile(files, f);
    forall i | 0 <= i < |r|
      ensures r[i].Valid()
    {
      assert r[i] in r;
    }
  }

  predicate Apart(f: File, g: File) {
    Before(f.largest, g.smallest) || Before(g.largest, f.smallest)
  }

  lemma DistinctFilesAreApart(files: seq<File>, f: File, g: File)
    requires Disjoint(files) && f in files && g in files && f != g
    ensures Apart(f, g)
  {
    var i :| 0 <= i < |files| && files[i] == f;
    var j :| 0 <= j < |files| && files[j] == g;
    assert i < j || j < i;
  }

  lemma {:induction false} InsertFileKeepsDisjoint(files: seq<File>, f: File)
    requires ValidFiles(files) && f.Valid() && Disjoint(files)
    requires forall g :: g in files ==> Apart(f, g)
    ensures Disjoint(InsertFile(files, f))
  {
    if files == [] {
    } else if BySmallest(f, files[0]) {
      EntriesAreInRange(f, f.entries[0]);
      assert files[0] in files;
      EntriesAreInRange(files[0], files[0].entries[0]);
      forall i | 0 <= i < |files|
        ensures Before(f.largest, files[i].smallest)
      {
        if i > 0 {
          EntriesAreInRange(files[0], files[0].entries[0]);
        }
      }
    } else {
      assert files[0] in files;
      EntriesAreInRange(f, f.entries[0]);
      EntriesAreInRange(files[0], files[0].entries[0]);
      forall g | g in files[1..]
        ensures g in files
      {
      }
      InsertFileKeepsDisjoint(files[1..], f);
      InsertFileMembers(files[1..], f);
      var r := InsertFile(files[1..], f);
      forall i | 0 <= i < |r|
        ensures Before(files[0].largest, r[i].smallest)
      {
        assert r[i] in r;
      }
    }
  }

  lemma {:induction false} InsertFilesKeepsDisjoint(files: seq<File>, more: seq<File>)
    requires ValidFiles(files) && ValidFiles(more) && Disjoint(files) && Disjoint(more)
    requires forall f, g :: f in more && g in files ==> Apart(f, g)
    ensures Disjoint(InsertFiles(files, more))
  {
    if more != [] {
      var front, f := more[..|more| - 1], more[|more| - 1];
      InsertFilesKeepsDisjoint(files, front);
      InsertFilesMembers(files, front);
      var r := InsertFiles(files, front);
      assert f in more;
      forall g | g in r
        ensures Apart(f, g) && g.Valid()
      {
        if g in front {
          var i :| 0 <= i < |front| && front[i] == g;
        }
      }
      InsertFileKeepsDisjoint(r, f);
    }
  }

  lemma {:induction false} WithoutKeepsDisjoint(files: seq<File>, gone: seq<File>)
    requires Disjoint(files)
    ensures Disjoint(Without(files, gone))
  {
    if files != [] {
      WithoutKeepsDisjoint(files[1..], gone);
      WithoutMembers(files[1..], gone);
      var r := Without(files[1..], gone);
      forall i | 0 <= i < |r|
        ensures Before(files[0].largest, r[i].smallest)
      {
        assert r[i] in r;
      }
    }
  }

  // ----- Flushing a memtable -----

  function Flushed(v: Version, level: nat, f: File): Version
    requires level < NUM_LEVELS
  {
    v[level := InsertFile(v[level], f)]
  }

  ghost predicate NumbersBelow(v: Version, number: nat) {
    forall l, f :: 0 <= l < NUM_LEVELS && f in v[l] ==> f.number < number
  }

  lemma FlushedContents(v: Version, level: nat, f: File)
    requires level < NUM_LEVELS
    ensures forall m :: 0 <= m < NUM_LEVELS && m != level ==> Flushed(v, level, f)[m] == v[m]
    ensures LevelContents(Flushed(v, level, f)[level]) == LevelContents(v[level]) + Elements(f.entries)
    ensures Contents(Flushed(v, level, f)) == Contents(v) + Elements(f.entries)
  {
    InsertFileMembers(v[level], f);
  }

  lemma NonOverlappingShareNoKey(files: seq<File>, f: File)
    requires ValidFiles(files) && f.Valid()
    requires forall g :: g in files ==> !Overlaps(g, Some(f.smallest.user), Some(f.largest.user))
    ensures Newer(LevelContents(files), Elements(f.entries))
  {
    forall x, y | x in LevelContents(files) && y in Elements(f.entries)
      ensures x.key.user != y.key.user
    {
      var g :| g in files && x in g.entries;
      EntriesAreInRange(g, x);
      EntriesAreInRange(f, y);
    }
  }

  // No file in the levels passed over, or in the level chosen below level 0, overlaps the table.
  ghost predicate RoomDownTo(v: Version, level: nat, lo: UserKey, hi: UserKey)
    requires level < NUM_LEVELS
  {
    level > 0 ==> forall l :: 0 <= l <= level ==> !LevelOverlaps(v, l, Some(lo), Some(hi))
  }

  lemma {:induction false} FlushKeepsNewer(v: Version, level: nat, f: File, l: nat, m: nat)
    requires level < NUM_LEVELS && l < m < NUM_LEVELS
    requires Ordered(v) && f.Valid() && Newer(Elements(f.entries), Contents(v))
    requires RoomDownTo(v, level, f.smallest.user, f.largest.user)
    requires Newer(LevelContents(v[l]), LevelContents(v[m]))
    ensures Newer(LevelContents(Flushed(v, level, f)[l]), LevelContents(Flushed(v, level, f)[m]))
  {
    FlushedContents(v, level, f);
    if m == level {
      assert !LevelOverlaps(v, l, Some(f.smallest.user), Some(f.largest.user));
      NonOverlappingShareNoKey(v[l], f);
    } else if l == level {
      assert LevelContents(v[m]) <= Contents(v);
    }
  }

  lemma FlushKeepsFiles(v: Version, level: nat, f: File)
    requires Ordered(v) && NewerByNumber(v[0]) && f.Valid() && NumbersBelow(v, f.number)
    requires level < NUM_LEVELS && Newer(Elements(f.entries), Contents(v))
    requires RoomDownTo(v, level, f.smallest.user, f.largest.user)
    ensures Ordered(Flushed(v, level, f))
    ensures NewerByNumber(Flushed(v, level, f)[0])
  {
    InsertFileMembers(v[level], f);
    InsertFileKeepsValid(v[level], f);
    if level > 0 {
      assert !LevelOverlaps(v, level, Some(f.smallest.user), Some(f.largest.user));
      InsertFileKeepsDisjoint(v[level], f);
    } else {
      forall g | g in v[0]
        ensures g.number < f.number && Newer(Elements(f.entries), Elements(g.entries))
      {
        InContents(v, 0, g);
      }
    }
  }

  /** A memtable's table, put at the level PickLevelForMemTableOutput chooses, keeps the
      version layered. */
  lemma FlushKeepsLayered(v: Version, level: nat, f: File)
    requires Layered(v) && f.Valid() && NumbersBelow(v, f.number)
    requires Newer(Elements(f.entries), Contents(v))
    requires level <= MAX_MEM_COMPACT_LEVEL
    requires level > 0 ==> !LevelOverlaps(v, 0, Some(f.smallest.user), Some(f.largest.user))
    requires forall l :: 0 <= l < level ==> MaySink(v, l, f.smallest.user, f.largest.user)
    ensures Layered(Flushed(v, level, f))
    ensures Contents(Flushed(v, level, f)) == Contents(v) + Elements(f.entries)
  {
    FlushedContents(v, level, f);
    forall l | 0 <= l <= level && level > 0
      ensures !LevelOverlaps(v, l, Some(f.smallest.user), Some(f.largest.user))
    {
      assert l > 0 ==> MaySink(v, l - 1, f.smallest.user, f.largest.user);
    }
    FlushKeepsFiles(v, level, f);
    forall l, m | 0 <= l < m < NUM_LEVELS
      ensures Newer(LevelContents(Flushed(v, level, f)[l]), LevelContents(Flushed(v, level, f)[m]))
    {
      assert Newer(LevelContents(v[l]), LevelContents(v[m]));
      FlushKeepsNewer(v, level, f, l, m);
    }
  }
}
