/** One layer of the KV cache (kvcache.c): rows are appended in place, the backing storage grows by
    doubling, and a view may be trimmed to the newest rows. */
module KvCache {
  /** A tensor: its rank, its [B, H, n, D] shape and the n rows along its third axis. */
  datatype Tensor<R> = Tensor(rank: nat, batch: int, heads: int, dim: int, rows: seq<R>)

  datatype Views<R> = NoViews | Views(keys: seq<R>, values: seq<R>)

  /** The view rule shared by kvcache_update and kvcache_view: on a decode step (one query row) of a
      capped layer, only the newest maxKv rows. */
  function Trim<R>(rows: seq<R>, queries: nat, maxKv: nat): (v: seq<R>)
    ensures |v| == if maxKv > 0 && queries == 1 && |rows| > maxKv then maxKv else |rows|
  {
    if maxKv > 0 && queries == 1 && |rows| > maxKv then rows[|rows| - maxKv..] else rows
  }

  /** c, doubled until it reaches `needed`. */
  function Doubled(c: nat, needed: nat): (r: nat)
    requires c > 0
    ensures c <= r && needed <= r && (r == c || (2 * c <= r && r < 2 * needed))
    decreases needed - c
  {
    if c >= needed then c else Doubled(2 * c, needed)
  }

  /** The shapes that kvcache_update accepts for a layer that, if it has been used, has the given
      heads and dimension. */
  predicate Fits<R>(k: Tensor<R>, v: Tensor<R>, used: bool, heads: int, dim: int) {
    && k.rank == 4 && v.rank == 4
    && (used ==> k.heads == heads && k.dim == dim)
    && v.heads == k.heads && v.dim == k.dim && v.batch == k.batch && |v.rows| == |k.rows|
  }

  class Entry<R> {
    const zero: R
    var keys: seq<R>
    var values: seq<R>
    var offset: nat
    var capacity: nat
    var heads: int
    var dim: int
    var initialized: bool
    ghost var copied: nat    // rows copied by all growth so far

    ghost predicate Shaped()
      reads this
    {
      && offset <= capacity == |keys| == |values|
      && (!initialized ==> offset == 0 && capacity == 0)
      && copied <= capacity
    }

    /** The storage is never more than twice what is needed, and all growth together has copied no more
        rows than it holds. */
    ghost predicate Valid()
      reads this
    {
      Shaped() && (capacity <= 1 || capacity < 2 * offset)
    }

    ghost function Keys(): seq<R>
      requires Shaped()
      reads this
    {
      keys[..offset]
    }

    ghost function Values(): seq<R>
      requires Shaped()
      reads this
    {
      values[..offset]
    }

    constructor (zero: R)
      ensures Valid() && Keys() == [] && Values() == [] && !initialized
    {
      this.zero := zero;
      keys, values := [], [];
      offset, capacity, heads, dim, initialized, copied := 0, 0, 0, 0, false, 0;
    }

    /** grow_entry: double until it fits, copy the valid rows. */
    method Grow(needed: nat)
      requires Shaped() && (initialized ==> needed > capacity)
      modifies this
      ensures Shaped() && initialized && offset == old(offset)
      ensures capacity == Doubled(if old(capacity) > 0 then old(capacity) else 1, needed)
      ensures Keys() == old(Keys()) && Values() == old(Values())
      ensures heads == old(heads) && dim == old(dim)
    {
      var nc := if capacity > 0 then capacity else 1;
      ghost var start := nc;
      while nc < needed
        invariant nc > 0 && nc >= capacity && Doubled(nc, needed) == Doubled(start, needed)
        decreases needed - nc
      {
        nc := nc * 2;
      }
      var newKeys := seq(nc, _ => zero);
      var newValues := seq(nc, _ => zero);
      if initialized && offset > 0 {
        newKeys := keys[..offset] + newKeys[offset..];
        newValues := values[..offset] + newValues[offset..];
        copied := copied + offset;
      }
      keys, values, capacity, initialized := newKeys, newValues, nc, true;
    }

    /** The two slice updates behind the valid rows. */
    method Write(newKeys: seq<R>, newValues: seq<R>)
      requires Shaped() && initialized && |newKeys| == |newValues| && offset + |newKeys| <= capacity
      modifies this`keys, this`values, this`offset
      ensures Shaped() && offset == old(offset) + |newKeys|
      ensures Keys() == old(Keys()) + newKeys && Values() == old(Values()) + newValues
    {
      var needed := offset + |newKeys|;
      keys := keys[..offset] + newKeys + keys[needed..];
      values := values[..offset] + newValues + values[needed..];
      offset := needed;
    }

    /** kvcache_update. */
    method Update(newK: Tensor<R>, newV: Tensor<R>, maxKv: int) returns (views: Views<R>)
      requires Valid()
      modifies this
      ensures Valid()
      ensures views.NoViews? <==> maxKv < 0 || !Fits(newK, newV, old(initialized), old(heads), old(dim))
      ensures views.NoViews? ==> Keys() == old(Keys()) && Values() == old(Values())
      ensures views.Views? ==>
                && Keys() == old(Keys()) + newK.rows && Values() == old(Values()) + newV.rows
                && views == Views(Trim(Keys(), |newK.rows|, maxKv), Trim(Values(), |newK.rows|, maxKv))
      ensures views.Views? ==> initialized && heads == newK.heads && dim == newK.dim
    {
      if maxKv < 0 {
        return NoViews;
      }
      if newK.rank != 4 || newV.rank != 4 {
        return NoViews;
      }
      if initialized && (newK.heads != heads || newK.dim != dim) {
        return NoViews;
      }
      if newV.heads != newK.heads || newV.dim != newK.dim {
        return NoViews;
      }
      if newK.batch != newV.batch || |newV.rows| != |newK.rows| {
        return NoViews;
      }
      var newLen := |newK.rows|;
      var needed := offset + newLen;
      if !initialized || needed > capacity {
        Grow(needed);
        heads, dim := newK.heads, newK.dim;
      }
      Write(newK.rows, newV.rows);
      var viewStart := if maxKv > 0 && newLen == 1 && offset > maxKv then offset - maxKv else 0;
      assert keys[..offset][viewStart..] == keys[viewStart..offset];
      assert values[..offset][viewStart..] == values[viewStart..offset];
      views := Views(keys[viewStart..offset], values[viewStart..offset]);
    }

    /** kvcache_view: a read-only view of a layer that has been updated. */
    method View(maxKv: int, queries: nat) returns (views: Views<R>)
      requires Valid()
      ensures views.NoViews? <==> maxKv < 0 || !initialized || offset == 0
      ensures views.Views? ==> views == Views(Trim(Keys(), queries, maxKv), Trim(Values(), queries, maxKv))
    {
      if maxKv < 0 || !initialized || offset <= 0 {
        return NoViews;
      }
      var viewStart := if maxKv > 0 && queries == 1 && offset > maxKv then offset - maxKv else 0;
      assert keys[..offset][viewStart..] == keys[viewStart..offset];
      assert values[..offset][viewStart..] == values[viewStart..offset];
      views := Views(keys[viewStart..offset], values[viewStart..offset]);
    }
  }
}
