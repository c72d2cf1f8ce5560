/** The readers that keep a crafted archive from filling memory or disk. */
module BoundedReaders {

  type Byte = bv8

  datatype Status = More | Eof | TooLarge

  /** A source that hands out its bytes in chunks of its own choosing: at least one, never more than
      asked for. */
  class Source {
    const data: seq<Byte>
    const chunk: nat -> nat
    var at: nat

    constructor (data: seq<Byte>, chunk: nat -> nat)
      ensures this.data == data && this.chunk == chunk && at == 0
    {
      this.data := data;
      this.chunk := chunk;
      at := 0;
    }

    method Read(size: nat) returns (got: seq<Byte>, status: Status)
      requires at <= |data| && size > 0
      modifies this
      ensures old(at) <= at <= |data| && got == data[old(at)..at] && |got| <= size
      ensures status == (if old(at) == |data| then Eof else More)
      ensures old(at) < |data| ==> got != []
    {
      if at == |data| {
        return [], Eof;
      }
      var n := chunk(at) % size + 1;
      if n > |data| - at {
        n := |data| - at;
      }
      got := data[at..at + n];
      at := at + n;
      status := More;
    }
  }

  class CappedReader {
    const source: Source
    var remaining: int
    ghost const cap: nat

    constructor (source: Source, cap: nat)
      requires source.at == 0
      ensures this.source == source && this.cap == cap && Valid()
    {
      this.source := source;
      remaining := cap;
      this.cap := cap;
    }

    ghost predicate Valid()
      reads this, source
    {
      source.at <= |source.data| && remaining == cap - source.at
    }

    /** Passes a read on, and reports the read that crosses the cap and every one after it. */
    method Read(size: nat) returns (got: seq<Byte>, status: Status)
      requires Valid() && size > 0
      modifies this, source
      ensures Valid() && old(source.at) <= source.at
      ensures got == source.data[old(source.at)..source.at] && |got| <= size
      ensures status == TooLarge <==> source.at > cap
      ensures old(source.at) > cap ==> got == []
      ensures status == Eof ==> source.at == |source.data| && got == []
      ensures status == More ==> got != []
    {
      if remaining < 0 {
        return [], TooLarge;
      }
      got, status := source.Read(size);
      remaining := remaining - |got|;
      if remaining < 0 {
        status := TooLarge;
      }
    }
  }

  /** Copying a source through a capped reader succeeds exactly when the source is within the cap,
      and then copies all of it; otherwise it reports so, having written less than one buffer more
      than the cap. */
  method Copy(r: CappedReader, size: nat) returns (written: seq<Byte>, ok: bool)
    requires r.Valid() && r.source.at == 0 && size > 0
    modifies r, r.source
    ensures ok <==> |r.source.data| <= r.cap
    ensures ok ==> written == r.source.data
    ensures !ok ==> written <= r.source.data && r.cap < |written| <= r.cap + size
  {
    written := [];
    while true
      invariant r.Valid() && r.source.at <= r.cap && written == r.source.data[..r.source.at]
      decreases |r.source.data| - r.source.at
    {
      ghost var at := r.source.at;
      var got, status := r.Read(size);
      assert r.source.data[..at] + got == r.source.data[..r.source.at];
      written := written + got;
      if status != More {
        return written, status == Eof;
      }
    }
  }

  /** Reads at most one byte more than the limit, to tell an entry at the limit from one beyond it. */
  method ReadEntryBounded(source: Source, limit: nat, size: nat) returns (data: seq<Byte>, ok: bool)
    requires source.at == 0 && size > 0
    modifies source
    ensures ok <==> |source.data| <= limit
    ensures ok ==> data == source.data
    ensures source.at <= limit + 1
  {
    data := [];
    var status := More;
    while status == More && |data| < limit + 1
      invariant source.at <= |source.data| && source.at <= limit + 1 && data == source.data[..source.at]
      invariant status != TooLarge && (status == Eof ==> source.at == |source.data|)
      decreases |source.data| - source.at, if status == More then 1 else 0
    {
      ghost var at := source.at;
      var want := limit + 1 - |data|;
      var got;
      got, status := source.Read(if size < want then size else want);
      assert source.data[..at] + got == source.data[..source.at];
      data := data + got;
    }
    ok := |data| <= limit;
  }
}
