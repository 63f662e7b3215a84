/** The encoder: field writers and record writers that fill a slot in place. */
module IoTransfer {
  import opened Bytes
  import opened TxnTypes
  import opened Wire
  import opened TransferSize

  /** Copies `src` into the slot at `at`; nothing else changes. */
  method SetBytes(buf: array<Byte>, at: nat, src: seq<Byte>) returns (next: nat)
    requires at + |src| <= buf.Length
    modifies buf
    ensures next == at + |src|
    ensures buf[..at] == old(buf[..at])
    ensures buf[at..next] == src
    ensures buf[next..] == old(buf[next..])
  {
    next := at + |src|;
    for i := 0 to |src|
      invariant forall k :: 0 <= k < buf.Length && !(at <= k < at + i) ==> buf[k] == old(buf[k])
      invariant forall k :: 0 <= k < i ==> buf[at + k] == src[k]
    {
      buf[at + i] := src[i];
    }
  }

  /** Appends `src` to what has been written since `from`. */
  method Append(buf: array<Byte>, ghost from: nat, at: nat, src: seq<Byte>) returns (next: nat)
    requires from <= at && at + |src| <= buf.Length
    modifies buf
    ensures next == at + |src|
    ensures buf[..from] == old(buf[..from])
    ensures buf[from..next] == old(buf[from..at]) + src
  {
    ghost var before := buf[..];
    next := SetBytes(buf, at, src);
    assert buf[..from] == buf[..at][..from] && before[..from] == before[..at][..from];
    assert buf[from..next] == buf[..at][from..] + buf[at..next];
    assert before[from..at] == before[..at][from..];
  }

  /** type, key_len, key */
  method SetHead(buf: array<Byte>, b: TxnBuf, at: nat) returns (next: nat)
    requires at + 3 + |b.key| <= buf.Length
    modifies buf
    ensures next == at + 3 + |b.key|
    ensures buf[..at] == old(buf[..at]) && buf[at..next] == Head(b)
  {
    assert buf[at..at] == [];
    next := Append(buf, at, at, [Code(SentAs(b.ty))]);
    next := Append(buf, at, next, U16Bytes(|b.key|));
    next := Append(buf, at, next, b.key);
  }

  /** Head, offset, value length and value; the index moves on by `stride` from the value. */
  method SetValued(buf: array<Byte>, b: TxnBuf, at: nat, len: nat, stride: nat) returns (next: nat)
    requires |b.data| <= stride && at + 7 + |b.key| + stride <= buf.Length
    modifies buf
    ensures next == at + 7 + |b.key| + stride
    ensures buf[..at] == old(buf[..at])
    ensures Head(b) + U16Bytes(b.off) + U16Bytes(len) + b.data <= buf[at..next]
  {
    hide Head, U16Bytes, U16At;
    LengthOfFields(b, len);
    next := SetHead(buf, b, at);
    next := Append(buf, at, next, U16Bytes(b.off));
    next := Append(buf, at, next, U16Bytes(len));
    next := Append(buf, at, next, b.data);
    assert buf[at..next] <= buf[at..next + (stride - |b.data|)];
    next := next + (stride - |b.data|);
  }

  lemma LengthOfFields(b: TxnBuf, len: nat)
    ensures |Head(b)| == 3 + |b.key| && |U16Bytes(b.off)| == 2 && |U16Bytes(len)| == 2
  {}

  /** One record, by the case of the switch its type selects. */
  method SetRecord(buf: array<Byte>, b: TxnBuf, at: nat) returns (next: nat)
    requires WellFormed(b) && at + Extent(b) <= buf.Length
    modifies buf
    ensures next == at + Extent(b)
    ensures buf[..at] == old(buf[..at])
    ensures Encodes(buf[at..next], b)
  {
    hide Head, U16Bytes;
    if b.ty.MetaSet? {
      next := SetValued(buf, b, at, INODE_SIZE, STRIDE);
    } else if IsPut(b.ty) {
      next := SetValued(buf, b, at, b.len, b.len);
    } else if IsUpdate(b.ty) {
      next := SetValued(buf, b, at, b.update, STRIDE);
    } else {
      LengthOfFields(b, 0);
      next := SetHead(buf, b, at);
      if b.ty.DataDelMulti? {
        next := Append(buf, at, next, U16Bytes(b.off));
      }
    }
  }

  lemma {:induction false} EncodesAllSnoc(w: seq<Byte>, bs: seq<TxnBuf>, v: seq<Byte>, b: TxnBuf)
    requires EncodesAll(w, bs) && Encodes(v, b)
    ensures EncodesAll(w + v, bs + [b])
    decreases |bs|
  {
    hide Encodes, Extent;
    if bs == [] {
      assert w + v == v && bs + [b] == [b];
      assert Extent(b) == |v| by { EncodesLength(v, b); }
      assert v[..|v|] == v && v[|v|..] == [];
    } else {
      var n := Extent(bs[0]);
      EncodesAllSnoc(w[n..], bs[1..], v, b);
      assert (w + v)[..n] == w[..n] && (w + v)[n..] == w[n..] + v;
      assert (bs + [b])[1..] == bs[1..] + [b];
    }
  }

  lemma EncodesLength(v: seq<Byte>, b: TxnBuf)
    requires Encodes(v, b)
    ensures |v| == Extent(b)
  {}

  lemma {:induction false} EncodesAllLength(w: seq<Byte>, bs: seq<TxnBuf>)
    requires EncodesAll(w, bs)
    ensures |w| == Extents(bs)
    decreases |bs|
  {
    if bs != [] {
      EncodesAllLength(w[Extent(bs[0])..], bs[1..]);
    }
  }

  lemma {:induction false} BufsPrefix(ts: seq<Txn>, i: nat)
    requires i <= |ts|
    ensures Bufs(ts[..i]) <= Bufs(ts)
    ensures i < |ts| ==> Bufs(ts[..i]) + ts[i].bufs == Bufs(ts[..i + 1]) && Bufs(ts[..i + 1]) <= Bufs(ts)
    decreases |ts|
  {
    if i < |ts| {
      assert ts[..i + 1][..i] == ts[..i];
      if i + 1 < |ts| {
        var front := ts[..|ts| - 1];
        assert front[..i] == ts[..i] && front[..i + 1] == ts[..i + 1];
        BufsPrefix(front, i);
      } else {
        assert ts[..i + 1] == ts;
      }
    } else {
      assert ts[..i] == ts;
    }
  }

  lemma ExtentsOfPrefix(done: seq<TxnBuf>, b: TxnBuf, all: seq<TxnBuf>)
    requires done + [b] <= all
    ensures Extents(done + [b]) == Extents(done) + Extent(b) <= Extents(all)
  {
    hide Extent, Extents;
    ExtentsSnoc(done, b);
    ExtentsConcat(done + [b], all[|done| + 1..]);
    assert all == done + [b] + all[|done| + 1..];
  }

  /** What the slot holds after the records in `done`: the id, and their encodings from byte 6. */
  ghost predicate Written(w: seq<Byte>, id: nat, done: seq<TxnBuf>) {
    && |w| == 6 + Extents(done)
    && w[..4] == U32Bytes(id)
    && EncodesAll(w[6..], done)
  }

  method AppendRecord(buf: array<Byte>, b: TxnBuf, at: nat, ghost id: nat, ghost done: seq<TxnBuf>, ghost all: seq<TxnBuf>)
    returns (next: nat)
    requires done + [b] <= all && forall r :: r in all ==> WellFormed(r)
    requires at <= buf.Length && 6 + Extents(all) <= buf.Length && Written(buf[..at], id, done)
    modifies buf
    ensures next <= buf.Length && Written(buf[..next], id, done + [b])
  {
    hide Extents, EncodesAll, WellFormed, U32Bytes;
    assert b in all by { assert all[|done|] == b; }
    ExtentsOfPrefix(done, b, all);
    ghost var was := buf[..at];
    next := SetRecord(buf, b, at);
    WrittenSnoc(was, buf[at..next], id, done, b);
    assert buf[..next] == was + buf[at..next];
  }

  /** The inner loop: every record of one transaction, unless the count comes round to 0. */
  method SetTxn(buf: array<Byte>, t: Txn, start: nat, count: nat, ghost id: nat,
                ghost before: seq<TxnBuf>, ghost all: seq<TxnBuf>)
    returns (ok: bool, at: nat, cnt: nat)
    requires before + t.bufs <= all && forall b :: b in all ==> WellFormed(b)
    requires start <= buf.Length && 6 + Extents(all) <= buf.Length
    requires count == |before| < U16 && Written(buf[..start], id, before)
    modifies buf
    ensures ok <==> |before + t.bufs| < U16
    ensures ok ==> at <= buf.Length && cnt == |before + t.bufs| && Written(buf[..at], id, before + t.bufs)
  {
    hide Extents, WellFormed, Written;
    ok, at, cnt := true, start, count;
    assert before + t.bufs[..0] == before;
    for j := 0 to |t.bufs|
      invariant at <= buf.Length && cnt == |before| + j < U16
      invariant Written(buf[..at], id, before + t.bufs[..j])
    {
      var b := t.bufs[j];
      ghost var done := before + t.bufs[..j];
      assert done + [b] == before + t.bufs[..j + 1];
      at := AppendRecord(buf, b, at, id, done, all);
      cnt := (cnt + 1) % U16;
      if cnt == 0 {
        ok := false;
        return;
      }
    }
    assert t.bufs[..|t.bufs|] == t.bufs;
  }

  lemma WrittenSnoc(w: seq<Byte>, v: seq<Byte>, id: nat, done: seq<TxnBuf>, b: TxnBuf)
    requires Written(w, id, done) && Encodes(v, b)
    ensures Written(w + v, id, done + [b])
  {
    hide Extents, EncodesAll, Encodes, Extent;
    ExtentsSnoc(done, b);
    EncodesAllSnoc(w[6..], done, v, b);
    EncodesLength(v, b);
    assert (w + v)[6..] == w[6..] + v;
  }

  /**
   Serialises a c_txn into its slot and returns the length handed to the device.  It stops, as
   at the source's BUG_ON, exactly if there are 2^16 records or more.
   */
  method Transfer(c: CTxn, buf: array<Byte>) returns (ok: bool, len: nat)
    requires forall b :: b in Bufs(c.txns) ==> WellFormed(b)
    requires EncodedLen(c) <= buf.Length
    modifies buf
    ensures ok <==> |Bufs(c.txns)| < U16
    ensures ok ==> len == EncodedLen(c) && Transferred(buf[..len], c)
  {
    hide Extents, EncodesAll, WellFormed, U16Bytes, U32Bytes, Bufs;
    ghost var all := Bufs(c.txns);
    StartWritten(c.id);
    var at: nat := SetBytes(buf, 0, U32Bytes(c.id));
    at := at + 2;
    var cnt: nat := 0;
    assert c.txns[..0] == [];
    assert buf[..at][..4] == buf[0..4] && buf[..at][6..] == [];
    for i := 0 to |c.txns|
      invariant at <= buf.Length && cnt == |Bufs(c.txns[..i])| < U16
      invariant Written(buf[..at], c.id, Bufs(c.txns[..i]))
    {
      BufsPrefix(c.txns, i);
      ok, at, cnt := SetTxn(buf, c.txns[i], at, cnt, c.id, Bufs(c.txns[..i]), all);
      if !ok {
        len := 0;
        return;
      }
    }
    assert c.txns[..|c.txns|] == c.txns;
    ok, len := true, at;
    ghost var body := buf[..at];
    if c.flush || c.ordered {
      cnt := (cnt + 1) % U16;
      len := SetBytes(buf, at, [Code(ReqType.Commit)]);
    }
    assert buf[..at] == body;
    SetCount(c, buf, at, len, cnt, body);
  }

  lemma StartWritten(id: nat)
    ensures |U32Bytes(id)| == 4 && Extents([]) == 0 && EncodesAll([], []) && Bufs([]) == []
  {}

  lemma CountBytes(n: nat)
    ensures U16Bytes(n % U16) == U16Bytes(n) && |U16Bytes(n)| == 2
  {
    Low16(n);
  }

  /** The count goes into the gap left in the header. */
  method SetCount(c: CTxn, buf: array<Byte>, end: nat, len: nat, cnt: nat, ghost body: seq<Byte>)
    requires |Bufs(c.txns)| < U16
    requires 6 <= end <= len <= buf.Length && len == end + (if Marked(c) then 1 else 0)
    requires buf[..end] == body && Written(body, c.id, Bufs(c.txns))
    requires Marked(c) ==> buf[end] == Code(ReqType.Commit)
    requires cnt == (|Bufs(c.txns)| + if Marked(c) then 1 else 0) % U16
    modifies buf
    ensures len == EncodedLen(c) && Transferred(buf[..len], c)
  {
    hide Extents, EncodesAll, U16Bytes, U32Bytes, Bufs;
    ghost var was := buf[..];
    CountBytes(|Bufs(c.txns)| + if Marked(c) then 1 else 0);
    var _ := SetBytes(buf, 4, U16Bytes(cnt));
    assert buf[..len][..4] == buf[..4] == was[..4] == body[..4];
    assert buf[..len][4..6] == buf[4..6];
    assert buf[..len][6..end] == buf[6..][..end - 6] == was[6..][..end - 6] == body[6..];
    if Marked(c) {
      assert buf[..len][end] == buf[6..][end - 6] == was[6..][end - 6];
    }
  }

  /** What the device decodes from a slot is the c_txn that was handed over. */
  lemma SlotDecodes(w: seq<Byte>, c: CTxn)
    requires Packed(c) && c.txns != [] && c.id < U32 && (forall t :: t in c.txns ==> Proper(t)) && Transferred(w, c)
    ensures |w| <= C_TXN_LIMIT_BYTES
    ensures Decode(w) == Some(Decoded(c.id, |AllRecords(c)|, AllRecords(c)))
  {
    hide Proper, Packed, Decode, WellFormed, Bufs;
    FitsSlot(c);
    TransferRoundTrip(w, c);
  }
}
