/** scratch_reserve_mask: growing the encoders' buffers, with its 32-bit capacity arithmetic. */
module ScratchReserve {
  datatype Buffer = Nodes | Ids | Heap | Pretoks | Text | Out | Cand

  const U32: nat := 0x1_0000_0000
  const LIMIT: nat := (U32 - 1) / 3

  /** The capacity a buffer must have for an input of len bytes. */
  function Need(b: Buffer, len: nat): nat {
    match b
    case Heap => 3 * len
    case Cand => len + 2
    case _ => len
  }

  /** The value the code stores, computed in uint32_t. */
  function NeedWrapped(b: Buffer, len: nat): nat {
    match b
    case Heap => 3 * len % U32
    case Cand => (len + 2) % U32
    case _ => len
  }

  /** The order in which the code looks at the buffers. */
  function Order(): seq<Buffer> {
    [Nodes, Ids, Heap, Pretoks, Text, Out, Cand]
  }

  function Max(a: nat, b: nat): nat {
    if a < b then b else a
  }

  class Scratch {
    var cap: map<Buffer, nat>

    ghost predicate Valid()
      reads this
    {
      forall b: Buffer :: b in cap
    }

    constructor ()
      ensures Valid() && forall b: Buffer :: cap[b] == 0
    {
      cap := map[Nodes := 0, Ids := 0, Heap := 0, Pretoks := 0, Text := 0, Out := 0, Cand := 0];
      new;
      forall b: Buffer
        ensures b in cap && cap[b] == 0
      {
        match b { case Nodes => case Ids => case Heap => case Pretoks => case Text => case Out => case Cand => }
      }
    }

    /** One `if` of the code: realloc when the capacity is too small. */
    method Ensure(b: Buffer, len: nat, allocOk: bool) returns (ok: bool)
      requires Valid() && 0 < len <= LIMIT
      modifies this
      ensures Valid()
      ensures ok <==> allocOk || old(cap[b]) >= Need(b, len)
      ensures cap == if ok then old(cap)[b := Max(old(cap[b]), Need(b, len))] else old(cap)
    {
      ok := true;
      var small := if b == Heap then cap[b] / 3 < len else cap[b] < Need(b, len);
      if small {
        ok := allocOk;
        if ok {
          cap := cap[b := NeedWrapped(b, len)];
        }
      }
    }

    /** On success every buffer of the mask has room and no other changed; no capacity ever shrinks,
        wraps or is recorded without its allocation having succeeded.  It fails exactly for inputs
        over the limit or when an allocation that is needed fails. */
    method Reserve(inputLen: nat, mask: set<Buffer>, allocOk: Buffer -> bool) returns (ok: bool)
      requires Valid()
      modifies this
      ensures Valid()
      ensures ok <==> inputLen <= LIMIT && forall b :: b in mask ==> allocOk(b) || old(cap[b]) >= Need(b, Max(inputLen, 1))
      ensures ok ==> forall b: Buffer :: cap[b] == if b in mask then Max(old(cap[b]), Need(b, Max(inputLen, 1))) else old(cap[b])
      ensures forall b: Buffer :: cap[b] == old(cap[b]) || (b in mask && allocOk(b) && cap[b] == Need(b, Max(inputLen, 1)) > old(cap[b]))
      ensures inputLen <= 1431655765 && (forall b :: b in mask ==> allocOk(b)) ==> ok
      ensures ok ==> inputLen <= 1431655765 && forall b :: b in mask ==>
                cap[b] >= inputLen && cap[b] > 0 && (b == Heap ==> cap[b] >= 3 * inputLen) && (b == Cand ==> cap[b] >= inputLen + 2)
      ensures forall b: Buffer :: cap[b] > old(cap[b]) ==> cap[b] <= (if b == Heap then 3 else 1) * Max(inputLen, 1) + 2 && cap[b] < U32
    {
      if inputLen > LIMIT {
        return false;
      }
      var len := if inputLen > 0 then inputLen else 1;
      var order := Order();
      ghost var done: set<Buffer> := {};
      for i := 0 to |order|
        invariant Valid() && (forall j :: 0 <= j < i ==> order[j] in done) && (forall j :: i <= j < |order| ==> order[j] !in done)
        invariant forall b :: b in done && b in mask ==> allocOk(b) || old(cap[b]) >= Need(b, len)
        invariant forall b: Buffer :: cap[b] == if b in done && b in mask then Max(old(cap[b]), Need(b, len)) else old(cap[b])
      {
        if order[i] in mask {
          var grown := Ensure(order[i], len, allocOk(order[i]));
          if !grown {
            return false;
          }
        }
        done := done + {order[i]};
      }
      AllInOrder();
      assert forall b: Buffer :: b in order ==> b in done;
      ok := true;
    }
  }

  lemma AllInOrder()
    ensures forall b: Buffer :: b in Order()
  {
    forall b: Buffer
      ensures b in Order()
    {
      var o := Order();
      assert o[0] == Nodes && o[1] == Ids && o[2] == Heap && o[3] == Pretoks && o[4] == Text && o[5] == Out && o[6] == Cand;
      match b { case Nodes => case Ids => case Heap => case Pretoks => case Text => case Out => case Cand => }
    }
  }
}
