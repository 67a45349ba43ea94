/** Moving round the fields of a descriptor, and keeping count of the required ones. */
module PbFieldIters {
  import opened Primitives
  import opened PbSchema
  import opened PbParsing

  // How many required fields there are before position i.
  function RequiredBefore(fs: seq<Field>, i: nat): nat
    requires i <= |fs|
  {
    CountRequired(fs[..i])
  }

  lemma {:induction false} CountOneMore(fs: seq<Field>, f: Field)
    ensures CountRequired(fs + [f]) == CountRequired(fs) + if f.rule.Required? then 1 else 0
  {
    if fs == [] {
      assert fs + [f] == [f];
    } else {
      assert (fs + [f])[1..] == fs[1..] + [f];
      CountOneMore(fs[1..], f);
    }
  }

  lemma RequiredBeforeNext(fs: seq<Field>, i: nat)
    requires i < |fs|
    ensures RequiredBefore(fs, i + 1) == RequiredBefore(fs, i) + if fs[i].rule.Required? then 1 else 0
  {
    assert fs[..i + 1] == fs[..i] + [fs[i]];
    CountOneMore(fs[..i], fs[i]);
  }

  lemma {:induction false} RequiredBeforeGrows(fs: seq<Field>, i: nat, j: nat)
    requires i <= j <= |fs|
    ensures RequiredBefore(fs, i) <= RequiredBefore(fs, j)
    ensures i < j && fs[i].rule.Required? ==> RequiredBefore(fs, i) < RequiredBefore(fs, j)
  {
    if i < j {
      RequiredBeforeNext(fs, j - 1);
      RequiredBeforeGrows(fs, i, j - 1);
    }
  }

  // The r-th required field.
  lemma {:induction false} RequiredAt(fs: seq<Field>, r: nat, n: nat) returns (i: nat)
    requires n <= |fs| && r < RequiredBefore(fs, n)
    ensures i < n && fs[i].rule.Required? && RequiredBefore(fs, i) == r
  {
    RequiredBeforeNext(fs, n - 1);
    if RequiredBefore(fs, n - 1) == r {
      i := n - 1;
    } else {
      i := RequiredAt(fs, r, n - 1);
    }
  }

  class FieldIter {
    const start: seq<Field>
    var pos: nat  // at the terminator only if there are no fields
    var requiredFieldIndex: nat

    predicate Valid()
      reads this
    {
      && (pos < |start| || pos == 0 == |start|)
      && requiredFieldIndex == RequiredBefore(start, pos)
    }

    constructor (fields: seq<Field>)
      ensures Valid() && start == fields && pos == 0
    {
      start, pos, requiredFieldIndex := fields, 0, 0;
    }

    /** To the next field, or back to the first one after the last. */
    method Next() returns (more: bool)
      requires Valid()
      modifies this
      ensures Valid()
      ensures more == (old(pos) + 1 < |start|) && pos == if more then old(pos) + 1 else 0
    {
      if |start| == 0 {
        return false;
      }
      var prev := start[pos];
      RequiredBeforeNext(start, pos);
      pos := pos + 1;
      if pos == |start| {
        // Past the last field: from the first again.
        pos, requiredFieldIndex := 0, 0;
        return false;
      }
      if prev.rule.Required? {
        requiredFieldIndex := requiredFieldIndex + 1;
      }
      return true;
    }

    /** To the field with a tag, from wherever the iterator is and round the end if need be. */
    method Find(tag: nat) returns (found: bool)
      requires Valid() && ValidFields(start)
      modifies this
      ensures Valid()
      ensures start == [] ==> found == (tag == 0)
      ensures start != [] ==> match PbParsing.Find(start, tag)
                              case Some(i) => found && pos == i
                              case None => !found && pos == old(pos)
    {
      var from := pos;
      ghost var steps := 0;
      var more := true;
      while more
        invariant Valid() && from == old(pos) && steps <= |start|
        invariant start == [] ==> pos == 0 && (more || tag != 0)
        invariant start != [] ==> pos == Round(start, from, steps) && (more <==> steps < |start|)
        invariant forall k :: 0 <= k < steps && start != [] ==> start[Round(start, from, k)].tag != tag
        decreases more, |start| - steps
      {
        if Tag() == tag {
          if start != [] {
            FoundAt(start, pos, tag);
          }
          return true;
        }
        var _ := Next();
        more := pos != from;
        if start != [] {
          steps := steps + 1;
        }
      }
      // Round again, and no field has the tag.
      if start != [] {
        NotFoundAnywhere(start, from, tag);
      }
      return false;
    }

    // The tag of the current field, or of the terminator.
    function Tag(): nat
      requires Valid()
      reads this
    {
      if pos < |start| then start[pos].tag else 0
    }
  }

  // The position some steps from another one, going round.
  function Round(fs: seq<Field>, from: nat, steps: nat): (i: nat)
    requires from < |fs| && steps <= |fs|
    ensures i < |fs|
  {
    if from + steps < |fs| then from + steps else from + steps - |fs|
  }

  lemma {:induction false} FoundAt(fs: seq<Field>, i: nat, tag: nat)
    requires ValidFields(fs) && i < |fs| && fs[i].tag == tag
    ensures PbParsing.Find(fs, tag) == Some(i)
  {
    var j := PbParsing.Find(fs, tag);
    assert fs[i] in fs;
  }

  lemma {:induction false} NotFoundAnywhere(fs: seq<Field>, from: nat, tag: nat)
    requires from < |fs| && forall k :: 0 <= k < |fs| ==> fs[Round(fs, from, k)].tag != tag
    ensures PbParsing.Find(fs, tag) == None
  {
    forall i: nat | i < |fs| ensures fs[i].tag != tag {
      var k := if i >= from then i - from else i + |fs| - from;
      assert fs[Round(fs, from, k)].tag != tag;
    }
  }
}
