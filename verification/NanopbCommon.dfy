/** The circular field iterator (nanopb pb_common.c). */
module NanopbCommon {
  import opened Nanopb

  /** How many required fields come before field i. */
  function Rank(fields: seq<Field>, i: nat): (r: nat)
    requires i <= |fields|
    ensures r <= i
  {
    if i == 0 then 0 else Rank(fields, i - 1) + if fields[i - 1].htype.Required? then 1 else 0
  }

  lemma {:induction false} RankGrows(fields: seq<Field>, i: nat, j: nat)
    requires i < j <= |fields|
    ensures Rank(fields, i) + (if fields[i].htype.Required? then 1 else 0) <= Rank(fields, j)
  {
    if i + 1 < j {
      RankGrows(fields, i, j - 1);
    }
  }

  /** Every rank below the total belongs to a required field. */
  lemma {:induction false} RankedField(fields: seq<Field>, n: nat, r: nat) returns (i: nat)
    requires n <= |fields| && r < Rank(fields, n)
    ensures i < n && fields[i].htype.Required? && Rank(fields, i) == r
  {
    if fields[n - 1].htype.Required? && r == Rank(fields, n - 1) {
      i := n - 1;
    } else {
      i := RankedField(fields, n - 1, r);
    }
  }

  ghost predicate HasTag(fields: seq<Field>, tag: nat) {
    exists i :: 0 <= i < |fields| && fields[i].tag == tag
  }

  class FieldIter {
    const fields: seq<Field>
    var pos: nat
    var requiredFieldIndex: nat

    ghost predicate Valid()
      reads this
    {
      && (pos < |fields| || (fields == [] && pos == 0))
      && requiredFieldIndex == Rank(fields, pos)
    }

    /** The tag at the position; an empty table has only its terminator. */
    function Tag(): nat
      requires Valid()
      reads this
    {
      if pos < |fields| then fields[pos].tag else 0
    }

    constructor (fields: seq<Field>)
      ensures Valid() && pos == 0 && this.fields == fields
    {
      this.fields, this.pos, this.requiredFieldIndex := fields, 0, 0;
    }

    /** Steps to the next field, or back to the first one after the last. */
    method Next() returns (more: bool)
      requires Valid()
      modifies this
      ensures Valid()
      ensures more <==> old(pos) + 1 < |fields|
      ensures pos == if more then old(pos) + 1 else 0
    {
      if Tag() == 0 {
        return false;
      }
      if pos + 1 == |fields| {
        pos, requiredFieldIndex := 0, 0;
        more := false;
      } else {
        if fields[pos].htype.Required? {
          requiredFieldIndex := requiredFieldIndex + 1;
        }
        pos := pos + 1;
        more := true;
      }
    }

    /** Searches the whole table from the current field on, and stays there when nothing is found. */
    method Find(tag: nat) returns (found: bool)
      requires Valid()
      modifies this
      ensures Valid()
      ensures fields != [] ==> (found <==> HasTag(fields, tag))
      ensures fields == [] ==> (found <==> tag == 0)
      ensures found ==> Tag() == tag
      ensures !found ==> pos == old(pos)
    {
      var start := pos;
      ghost var wrapped := false;
      var searching := true;
      while searching
        invariant Valid()
        invariant !wrapped ==> start <= pos && forall i :: start <= i < pos ==> fields[i].tag != tag
        invariant wrapped ==> forall i :: 0 <= i < pos || start <= i < |fields| ==> fields[i].tag != tag
        invariant wrapped ==> pos < start || !searching
        invariant !searching ==> wrapped && pos == start && (fields == [] ==> tag != 0)
        decreases searching, !wrapped, |fields| - pos
      {
        if Tag() == tag {
          return true;
        }
        var more := Next();
        if !more {
          wrapped := true;
        }
        searching := pos != start;
      }
      found := false;
    }

    /** Steps to the end of the table to count its required fields. */
    method CountRequired() returns (count: nat)
      requires Valid()
      modifies this
      ensures Valid() && count == Rank(fields, |fields|)
    {
      var last: nat := pos;
      var more := true;
      count := requiredFieldIndex;
      while more
        invariant Valid()
        invariant last <= |fields|
        invariant !more ==> pos == 0 && count == Rank(fields, last)
        invariant !more ==> if fields == [] then last == 0 else last + 1 == |fields|
        decreases more, |fields| - pos
      {
        count, last := requiredFieldIndex, pos;
        more := Next();
      }
      if last < |fields| && fields[last].htype.Required? && Tag() != 0 {
        count := count + 1;
      }
    }
  }
}
