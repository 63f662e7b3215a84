/** A transaction under construction: what each insert stores and what it is charged for. */
module OpenTxn {
  import opened Bytes
  import opened TxnTypes
  import opened Wire

  function Repeat(b: Byte, n: nat): seq<Byte> { seq(n, _ => b) }

  /** The buffer the value is copied into: a metadata slot or a page. */
  function BufferSize(ty: ReqType): nat { if ty.MetaSet? then INODE_SIZE else PAGE_SIZE }

  /** What the insert demands of its caller; `raw` is the uninitialised buffer it allocates. */
  predicate InsertOk(key: seq<Byte>, value: Option<seq<Byte>>, off: nat, ty: ReqType, raw: seq<Byte>) {
    && |key| < U16 && off < U32
    && (value.Some? ==>
          && |raw| == BufferSize(ty)
          && off + |value.value| <= BufferSize(ty)
          && (value.value == [] ==> !ty.MetaSet? && !ty.DataSetWb?)
          && (ty.DataSetWb? ==> |value.value| == PAGE_SIZE))
  }

  /** SET and UPDATE store a whole buffer; an empty value clears the rest of the page; DEL stores only a count. */
  function Built(key: seq<Byte>, value: Option<seq<Byte>>, off: nat, ty: ReqType, raw: seq<Byte>): TxnBuf
    requires InsertOk(key, value, off, ty, raw)
  {
    match value
    case None => TxnBuf(ty, key, off % U16, PAGE_SIZE * off % U32, 0, [])
    case Some(v) =>
      if v == [] then TxnBuf(ty, key, off, PAGE_SIZE, PAGE_SIZE - off, raw[..off] + Repeat(0, PAGE_SIZE - off))
      else if ty.DataSetWb? then TxnBuf(ty, key, 0, PAGE_SIZE, 0, v)
      else TxnBuf(ty, key, off, PAGE_SIZE, |v|, raw[..off] + v + raw[off + |v|..])
  }

  /** An insert with a value for a type that carries one, or a delete of 1 to 65535 keys. */
  predicate ProperInsert(value: Option<seq<Byte>>, off: nat, ty: ReqType) {
    if value.Some? then ty.MetaSet? || IsPut(ty) || IsUpdate(ty)
    else (IsDel(ty) || ty.DataDelMulti?) && 1 <= off < U16
  }

  /** Proper inserts give records the encoder can send, charged for at least a page. */
  lemma BuiltIsSendable(key: seq<Byte>, value: Option<seq<Byte>>, off: nat, ty: ReqType, raw: seq<Byte>)
    requires InsertOk(key, value, off, ty, raw) && ProperInsert(value, off, ty)
    ensures var b := Built(key, value, off, ty, raw);
            WellFormed(b) && b.len >= PAGE_SIZE
  {}

  /** A record keeps the caller's bytes at the caller's offset and names their extent; an empty value clears from there on. */
  lemma BuiltKeepsValue(key: seq<Byte>, v: seq<Byte>, off: nat, ty: ReqType, raw: seq<Byte>)
    requires InsertOk(key, Some(v), off, ty, raw)
    ensures var b := Built(key, Some(v), off, ty, raw);
            && b.key == key && b.ty == ty
            && (ty.DataSetWb? ==> b.data == v && b.off == 0)
            && (v != [] && !ty.DataSetWb? ==> b.data[off..off + b.update] == v && b.off == off)
            && (v == [] ==> b.off == off && b.off + b.update == |b.data| && forall i :: off <= i < |b.data| ==> b.data[i] == 0)
  {}

  /** A delete keeps its type, its key and, in 16 bits, its count, holds no bytes, and is charged a page for each key. */
  lemma BuiltDeletes(key: seq<Byte>, cnt: nat, ty: ReqType, raw: seq<Byte>)
    requires InsertOk(key, None, cnt, ty, raw)
    ensures var b := Built(key, None, cnt, ty, raw);
            && b.ty == ty && b.key == key && b.data == [] && b.update == 0
            && (cnt < U16 ==> b.off == cnt && b.len == cnt * PAGE_SIZE)
  {}

  class OpenTransaction {
    var cnt: nat
    var size: nat
    var bufs: seq<TxnBuf>
    const kind: Kind

    ghost predicate Valid()
      reads this
    {
      Accounted(Txn(0, kind, bufs, cnt, size, false))
    }

    constructor (k: Kind)
      ensures Valid() && bufs == [] && kind == k
    {
      cnt := 0;
      size := 8;
      bufs := [];
      kind := k;
    }

    method Insert(key: seq<Byte>, value: Option<seq<Byte>>, off: nat, ty: ReqType, raw: seq<Byte>)
      requires Valid() && InsertOk(key, value, off, ty, raw)
      modifies this
      ensures Valid() && bufs == old(bufs) + [Built(key, value, off, ty, raw)]
    {
      hide Built, TxnBufSize, Charged, Add32;
      var buf := MakeBuf(key, value, off, ty, raw);
      AccountedSnoc(bufs, buf, cnt, size);
      cnt := Add32(cnt, 1);
      size := Add32(size, TxnBufSize(buf));
      bufs := bufs + [buf];
    }

    method MakeBuf(key: seq<Byte>, value: Option<seq<Byte>>, off: nat, ty: ReqType, raw: seq<Byte>) returns (buf: TxnBuf)
      requires InsertOk(key, value, off, ty, raw)
      ensures buf == Built(key, value, off, ty, raw)
    {
      buf := TxnBuf(ty, key, 0, 0, 0, []);
      if value.Some? {
        var v := value.value;
        if v == [] {
          buf := buf.(off := off, len := PAGE_SIZE, update := PAGE_SIZE - off, data := raw[..off] + Repeat(0, PAGE_SIZE - off));
        } else if ty.DataSetWb? {
          buf := buf.(data := v);
        } else {
          buf := buf.(off := off, len := |v|, data := raw[..off] + v + raw[off + |v|..], update := |v|);
        }
        buf := buf.(len := PAGE_SIZE);
      } else {
        buf := buf.(off := off % U16, len := PAGE_SIZE * off % U32);
      }
    }
  }

  lemma AccountedSnoc(bs: seq<TxnBuf>, b: TxnBuf, cnt: nat, size: nat)
    requires cnt == |bs| % U32 && size == (8 + Charged(bs)) % U32
    ensures Add32(cnt, 1) == |bs + [b]| % U32
    ensures Add32(size, TxnBufSize(b)) == (8 + Charged(bs + [b])) % U32
  {
    hide Charged, TxnBufSize;
    ChargedSnoc(bs, b);
    ModAdd(|bs|, 1);
    ModAdd(8 + Charged(bs), TxnBufSize(b));
  }

  lemma ChargedSnoc(bs: seq<TxnBuf>, b: TxnBuf)
    ensures Charged(bs + [b]) == Charged(bs) + TxnBufSize(b)
  {
    assert (bs + [b])[..|bs|] == bs;
  }
}
