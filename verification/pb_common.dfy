/** The field iterator of nanopb (pb_common.c): it goes round and round the fields. */
module PbCommon {
  import opened InternalKey
  import opened Pb
  import opened PbDecoding

  class FieldIter {
    const fields: seq<Field>
    var pos: nat
    var requiredFieldIndex: nat

    ghost predicate Inv()
      reads this
    {
      && fields != [] && pos < |fields|
      && requiredFieldIndex == RequiredBefore(fields, pos)
    }

    /** pb_field_iter_begin, for a message type that has fields. */
    constructor (fields: seq<Field>)
      requires fields != []
      ensures Inv() && pos == 0 && this.fields == fields
    {
      this.fields, pos, requiredFieldIndex := fields, 0, 0;
    }

    /** pb_field_iter_next */
    method Next() returns (more: bool)
      requires Inv()
      modifies this
      ensures Inv() && pos == (if old(pos) + 1 < |fields| then old(pos) + 1 else 0)
      ensures more <==> old(pos) + 1 < |fields|
    {
      var previous := fields[pos];
      pos := pos + 1;
      if pos == |fields| {
        pos, requiredFieldIndex := 0, 0;
        return false;
      }
      if previous.rule.Required? {
        requiredFieldIndex := requiredFieldIndex + 1;
      }
      return true;
    }

    /** How many steps it takes to come round to `start`. */
    ghost function Distance(start: nat): nat
      requires Inv() && start < |fields|
      reads this
    {
      if pos <= start then start - pos else |fields| - pos + start
    }

    /** pb_field_iter_find: from the current field round to it again. */
    method Find(tag: nat) returns (found: bool)
      requires Inv() && forall i, j :: 0 <= i < j < |fields| ==> fields[i].tag != fields[j].tag
      modifies this
      ensures Inv()
      ensures FindField(fields, tag) == if found then Some(pos) else None
    {
      var start := pos;
      ghost var tried: set<nat> := {};
      if fields[pos].tag == tag {
        FindsField(fields, pos);
        return true;
      }
      var more := Next();
      while pos != start
        invariant Inv()
        invariant forall i :: 0 <= i < |fields| && Passed(start, i) ==> fields[i].tag != tag
        decreases Distance(start)
      {
        if fields[pos].tag == tag {
          FindsField(fields, pos);
          return true;
        }
        more := Next();
      }
      return false;
    }

    /** Field `i` was tried on the way from `start` to the current field. */
    ghost predicate Passed(start: nat, i: nat)
      reads this
    {
      if pos > start then start <= i < pos else i >= start || i < pos
    }
  }
}
