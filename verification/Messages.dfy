/** Marshalling, sizes and unmarshalling of the three proxy messages. */
module Messages {
  import opened Varint
  import opened Wire

  /** The codec of an embedded message of another package: its bytes, and decoding into a
      value that may already hold fields. */
  datatype Codec<!T> = Codec(empty: T, encode: T -> seq<Byte>, decodeInto: (T, Data) -> Result<T>)

  ghost predicate RoundTrips<T(!new)>(c: Codec<T>) {
    forall m: T :: |c.encode(m)| <= MAX_INT ==> c.decodeInto(c.empty, c.encode(m)) == Ok(m)
  }

  datatype ProxyOptions = ProxyOptions(path: seq<Byte>)
  datatype Status<T> = Status(meta: T)
  datatype StatusList<L, T> = StatusList(meta: L, items: seq<Status<T>>)

  // ------------------------------------------------------------------ bytes and sizes

  /** A length-delimited field: tag byte, length, payload. */
  function FieldBytes(tag: Byte, payload: seq<Byte>): seq<Byte> {
    [tag] + Bytes(|payload|) + payload
  }

  function OptionsBytes(m: ProxyOptions): seq<Byte> {
    FieldBytes(0xa, m.path)
  }

  function StatusBytes<T>(c: Codec<T>, m: Status<T>): seq<Byte> {
    FieldBytes(0xa, c.encode(m.meta))
  }

  function ItemsBytes<T>(c: Codec<T>, items: seq<Status<T>>): seq<Byte> {
    if items == [] then [] else FieldBytes(0x12, StatusBytes(c, items[0])) + ItemsBytes(c, items[1..])
  }

  function ListBytes<L, T>(lc: Codec<L>, c: Codec<T>, m: StatusList<L, T>): seq<Byte> {
    FieldBytes(0xa, lc.encode(m.meta)) + ItemsBytes(c, m.items)
  }

  /** The term 1 + l + sovGenerated(l) of the Size methods. */
  function FieldSize(l: Uint64): nat {
    1 + l + Sov(l)
  }

  lemma FieldBytesSize(tag: Byte, payload: seq<Byte>)
    requires |payload| < TWO64
    ensures |FieldBytes(tag, payload)| == FieldSize(|payload|)
  {
    BytesLength(|payload|);
  }

  /** ClusterStatusList.Size: the loop over the items. */
  method ListSize<L, T>(lc: Codec<L>, c: Codec<T>, m: StatusList<L, T>) returns (n: nat)
    requires |ListBytes(lc, c, m)| <= MAX_INT
    ensures n == |ListBytes(lc, c, m)|
  {
    var l := |lc.encode(m.meta)|;
    n := FieldSize(l);
    FieldBytesSize(0xa, lc.encode(m.meta));
    assert m.items[..0] == [] && m.items[..|m.items|] == m.items;
    for k := 0 to |m.items|
      invariant n == |FieldBytes(0xa, lc.encode(m.meta))| + |ItemsBytes(c, m.items[..k])|
    {
      ItemsSplit(c, m.items, k + 1);
      ItemsStep(c, m.items, k);
      FieldBytesSize(0xa, c.encode(m.items[k].meta));
      FieldBytesSize(0x12, StatusBytes(c, m.items[k]));
      l := FieldSize(|c.encode(m.items[k].meta)|);
      n := n + FieldSize(l);
    }
  }

  lemma {:induction false} ItemsSplit<T>(c: Codec<T>, items: seq<Status<T>>, k: nat)
    requires k <= |items|
    ensures ItemsBytes(c, items) == ItemsBytes(c, items[..k]) + ItemsBytes(c, items[k..])
  {
    if k == 0 {
      assert items[0..] == items;
    } else {
      ItemsSplit(c, items[1..], k - 1);
      assert items[..k][1..] == items[1..][..k - 1];
      assert items[1..][k - 1..] == items[k..];
    }
  }

  lemma ItemsStep<T>(c: Codec<T>, items: seq<Status<T>>, k: nat)
    requires k < |items|
    ensures var item := FieldBytes(0x12, StatusBytes(c, items[k]));
            && ItemsBytes(c, items[k..]) == item + ItemsBytes(c, items[k + 1..])
            && ItemsBytes(c, items[..k + 1]) == ItemsBytes(c, items[..k]) + item
  {
    assert items[k..][1..] == items[k + 1..];
    var front := items[..k + 1];
    ItemsSplit(c, front, k);
    assert front[..k] == items[..k];
    assert front[k..][1..] == [];
    assert ItemsBytes(c, front[k..]) == FieldBytes(0x12, StatusBytes(c, items[k])) + ItemsBytes(c, []);
  }

  // ------------------------------------------------------------------ marshalling

  /** bytes stand from start to end, and nothing outside has changed. */
  predicate Written(now: seq<Byte>, start: int, end: int, bytes: seq<Byte>, before: seq<Byte>) {
    && |now| == |before|
    && 0 <= start <= end <= |before|
    && now[start..] == bytes + before[end..]
    && now[..start] == before[..start]
  }

  lemma WrittenBefore(now: seq<Byte>, i: int, first: seq<Byte>, mid: seq<Byte>, j: int, k: int,
                      second: seq<Byte>, before: seq<Byte>)
    requires Written(now, i, j, first, mid) && Written(mid, j, k, second, before)
    ensures Written(now, i, k, first + second, before)
  {
  }

  /** The payload ends at end and has size bytes: put its length and its tag before it. */
  method PutHeader(buf: array<Byte>, end: nat, payload: nat, tag: Byte) returns (start: nat)
    requires payload < TWO64 && payload <= end <= buf.Length
    requires 1 + Sov(payload) <= end - payload
    modifies buf
    ensures start == end - payload - Sov(payload) - 1
    ensures Written(buf[..], start, end, FieldBytes(tag, old(buf[end - payload..end])), old(buf[..]))
  {
    var at := end - payload;
    ghost var before := buf[..];
    var i := EncodeVarint(buf, at, payload);
    i := i - 1;
    buf[i] := tag;
    start := i;
    assert buf[start] == tag && buf[start + 1..at] == Bytes(payload);
    HeaderWritten(buf[..], before, start, at, end, tag);
  }

  /** A tag, a length and the payload after them make up a field. */
  lemma HeaderWritten(now: seq<Byte>, before: seq<Byte>, start: nat, at: nat, end: nat, tag: Byte)
    requires start < at <= end <= |now| == |before|
    requires now[start] == tag && now[start + 1..at] == Bytes(end - at)
    requires now[..start] == before[..start] && now[at..] == before[at..]
    ensures Written(now, start, end, FieldBytes(tag, before[at..end]), before)
  {
    hide Bytes;
    assert now[start..] == [now[start]] + now[start + 1..at] + now[at..];
    assert before[at..] == before[at..end] + before[end..];
  }

  method CopyTo(buf: array<Byte>, end: nat, payload: seq<Byte>)
    requires |payload| <= end <= buf.Length
    modifies buf
    ensures Written(buf[..], end - |payload|, end, payload, old(buf[..]))
  {
    var i := end - |payload|;
    forall k | 0 <= k < |payload| {
      buf[i + k] := payload[k];
    }
  }

  /** A whole length-delimited field, payload first. */
  method PutField(buf: array<Byte>, end: nat, payload: seq<Byte>, tag: Byte) returns (start: nat)
    requires |payload| < TWO64 && |FieldBytes(tag, payload)| <= end <= buf.Length
    modifies buf
    ensures start == end - |FieldBytes(tag, payload)|
    ensures Written(buf[..], start, end, FieldBytes(tag, payload), old(buf[..]))
  {
    FieldBytesSize(tag, payload);
    CopyTo(buf, end, payload);
    ghost var mid := buf[..];
    assert mid[end - |payload|..end] == mid[end - |payload|..][..|payload|] == payload;
    assert mid[end..] == mid[end - |payload|..][|payload|..];
    start := PutHeader(buf, end, |payload|, tag);
    assert buf[..start] == mid[..end - |payload|][..start];
  }

  /** ClusterStatusProxyOptions.MarshalToSizedBuffer, on the part of buf before end. */
  method MarshalOptionsTo(buf: array<Byte>, end: nat, m: ProxyOptions) returns (start: nat)
    requires |OptionsBytes(m)| <= end <= buf.Length <= MAX_INT
    modifies buf
    ensures start == end - |OptionsBytes(m)|
    ensures Written(buf[..], start, end, OptionsBytes(m), old(buf[..]))
  {
    start := PutField(buf, end, m.path, 0xa);
  }

  /** ClusterStatus.MarshalToSizedBuffer, on the part of buf before end. */
  method MarshalStatusTo<T>(c: Codec<T>, buf: array<Byte>, end: nat, m: Status<T>) returns (start: nat)
    requires |StatusBytes(c, m)| <= end <= buf.Length <= MAX_INT
    modifies buf
    ensures start == end - |StatusBytes(c, m)|
    ensures Written(buf[..], start, end, StatusBytes(c, m), old(buf[..]))
  {
    start := PutField(buf, end, c.encode(m.meta), 0xa);
  }

  /** One turn of the item loop of ClusterStatusList.MarshalToSizedBuffer. */
  method MarshalItemTo<T>(c: Codec<T>, buf: array<Byte>, end: nat, m: Status<T>) returns (start: nat)
    requires |FieldBytes(0x12, StatusBytes(c, m))| <= end <= buf.Length <= MAX_INT
    modifies buf
    ensures start == end - |FieldBytes(0x12, StatusBytes(c, m))|
    ensures Written(buf[..], start, end, FieldBytes(0x12, StatusBytes(c, m)), old(buf[..]))
  {
    FieldBytesSize(0x12, StatusBytes(c, m));
    var at := MarshalStatusTo(c, buf, end, m);
    ghost var mid := buf[..];
    assert mid[at..end] == mid[at..][..end - at];
    assert mid[end..] == mid[at..][end - at..];
    start := PutHeader(buf, end, end - at, 0x12);
    assert buf[..start] == mid[..at][..start];
  }

  /** ClusterStatusList.MarshalToSizedBuffer: the items from last to first, then the
      list's own metadata. */
  method MarshalListTo<L, T>(lc: Codec<L>, c: Codec<T>, buf: array<Byte>, m: StatusList<L, T>)
    returns (start: nat)
    requires |ListBytes(lc, c, m)| <= buf.Length <= MAX_INT
    modifies buf
    ensures start == buf.Length - |ListBytes(lc, c, m)|
    ensures Written(buf[..], start, buf.Length, ListBytes(lc, c, m), old(buf[..]))
  {
    var i := buf.Length;
    var k := |m.items|;
    ghost var before := buf[..];
    ghost var head := FieldBytes(0xa, lc.encode(m.meta));
    assert m.items[..k] == m.items;
    while k > 0
      invariant 0 <= k <= |m.items|
      invariant i == buf.Length - |ItemsBytes(c, m.items[k..])|
      invariant |head| + |ItemsBytes(c, m.items[..k])| <= i
      invariant Written(buf[..], i, buf.Length, ItemsBytes(c, m.items[k..]), before)
    {
      k := k - 1;
      ItemsStep(c, m.items, k);
      ghost var mid, j := buf[..], i;
      i := MarshalItemTo(c, buf, i, m.items[k]);
      WrittenBefore(buf[..], i, FieldBytes(0x12, StatusBytes(c, m.items[k])), mid, j, buf.Length,
                    ItemsBytes(c, m.items[k + 1..]), before);
    }
    assert m.items[0..] == m.items;
    ghost var mid := buf[..];
    start := PutField(buf, i, lc.encode(m.meta), 0xa);
    WrittenBefore(buf[..], start, head, mid, i, buf.Length, ItemsBytes(c, m.items), before);
  }

  /** ClusterStatusList.Marshal: Size() bytes, filled from end to start without a gap. */
  method MarshalList<L, T>(lc: Codec<L>, c: Codec<T>, m: StatusList<L, T>) returns (bytes: seq<Byte>)
    requires |ListBytes(lc, c, m)| <= MAX_INT
    ensures bytes == ListBytes(lc, c, m)
  {
    var size := ListSize(lc, c, m);
    var buf := new Byte[size];
    var start := MarshalListTo(lc, c, buf, m);
    bytes := buf[..buf.Length - start];
  }

  /** ClusterStatusProxyOptions.Marshal. */
  method MarshalOptions(m: ProxyOptions) returns (bytes: seq<Byte>)
    requires |m.path| + 11 <= MAX_INT
    ensures bytes == OptionsBytes(m) && |bytes| == FieldSize(|m.path|)
  {
    FieldBytesSize(0xa, m.path);
    BytesAtMostTen(|m.path|);
    var buf := new Byte[FieldSize(|m.path|)];
    var start := MarshalOptionsTo(buf, buf.Length, m);
    bytes := buf[..buf.Length - start];
  }
}
