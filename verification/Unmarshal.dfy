/** The three Unmarshal methods, and what they make of marshalled bytes. */
module Unmarshal {
  import opened Varint
  import opened Wire
  import opened Messages

  /** One turn of an Unmarshal loop: a field the message knows, one it skips, or an error. */
  datatype Turn = Known(num: int, lo: nat, hi: nat) | Skipped(next: nat) | Failed(error: WireError)

  /** The turn at offset i for a message that knows the field numbers 1 to known. */
  function ReadTurn(data: Data, i: nat, known: nat): (t: Turn)
    requires i < |data|
    ensures t.Known? ==> 1 <= t.num <= known && i < t.lo <= t.hi <= |data|
    ensures t.Skipped? ==> i < t.next <= |data|
  {
    var tag := ReadVarint(data, i);
    if !tag.Value? then Failed(VarintError(tag))
    else if tag.value % 8 == 4 then Failed(EndGroupOutsideGroup)
    else if FieldNumber(tag.value) <= 0 then Failed(IllegalTag)
    else if FieldNumber(tag.value) <= known then
      if tag.value % 8 != 2 then Failed(WrongWireType)
      else
        var len := ReadVarint(data, tag.next);
        if !len.Value? then Failed(VarintError(len))
        else if ToInt64(len.value) < 0 then Failed(InvalidLength)
        else
          var post := AddInt(len.next, ToInt64(len.value));
          if post < 0 then Failed(InvalidLength)
          else if post > |data| then Failed(UnexpectedEof)
          else Known(FieldNumber(tag.value), len.next, post)
    else
      match Field(data[i..], 0)
      case Err(e) => Failed(e)
      case Ok(n) =>
        var next := AddInt(i, n);
        if next < 0 then Failed(InvalidLength)
        else if next > |data| then Failed(UnexpectedEof)
        else Skipped(next)
  }

  /** Reading the message from offset i on: known fields are applied in order. */
  function From<M>(data: Data, i: nat, known: nat, apply: (M, int, Data) -> Result<M>, m: M): Result<M>
    requires i <= |data|
    decreases |data| - i
  {
    if i == |data| then Ok(m)
    else
      match ReadTurn(data, i, known)
      case Failed(e) => Err(e)
      case Skipped(next) => From(data, next, known, apply, m)
      case Known(num, lo, hi) =>
        match apply(m, num, data[lo..hi])
        case Err(e) => Err(e)
        case Ok(m') => From(data, hi, known, apply, m')
  }

  function OptionsField(m: ProxyOptions, num: int, payload: Data): Result<ProxyOptions> {
    Ok(ProxyOptions(payload))
  }

  function StatusField<T>(c: Codec<T>, m: Status<T>, payload: Data): Result<Status<T>> {
    match c.decodeInto(m.meta, payload)
    case Err(e) => Err(e)
    case Ok(meta) => Ok(Status(meta))
  }

  function StatusApply<T>(c: Codec<T>): (Status<T>, int, Data) -> Result<Status<T>> {
    (m: Status<T>, num: int, payload: Data) => StatusField(c, m, payload)
  }

  function OptionsFrom(data: Data): Result<ProxyOptions> {
    From(data, 0, 1, OptionsField, ProxyOptions([]))
  }

  function StatusFrom<T>(c: Codec<T>, data: Data): Result<Status<T>> {
    From(data, 0, 1, StatusApply(c), Status(c.empty))
  }

  function ListField<L, T>(lc: Codec<L>, c: Codec<T>, m: StatusList<L, T>, num: int, payload: Data)
    : Result<StatusList<L, T>>
  {
    if num == 1 then
      match lc.decodeInto(m.meta, payload)
      case Err(e) => Err(e)
      case Ok(meta) => Ok(m.(meta := meta))
    else
      match StatusFrom(c, payload)
      case Err(e) => Err(e)
      case Ok(item) => Ok(m.(items := m.items + [item]))
  }

  function ListApply<L, T>(lc: Codec<L>, c: Codec<T>)
    : (StatusList<L, T>, int, Data) -> Result<StatusList<L, T>>
  {
    (m: StatusList<L, T>, num: int, payload: Data) => ListField(lc, c, m, num, payload)
  }

  function ListFrom<L, T>(lc: Codec<L>, c: Codec<T>, data: Data): Result<StatusList<L, T>> {
    From(data, 0, 2, ListApply(lc, c), StatusList(lc.empty, []))
  }

  // ------------------------------------------------------------------ the loops

  /** The tag, length and bounds checks that every Unmarshal loop opens with. */
  method NextTurn(data: Data, i: nat, known: nat) returns (t: Turn)
    requires i < |data|
    ensures t == ReadTurn(data, i, known)
  {
    var tag := DecodeVarint(data, i);
    if !tag.Value? {
      return Failed(VarintError(tag));
    }
    var fieldNum, wireType := FieldNumber(tag.value), tag.value % 8;
    if wireType == 4 {
      return Failed(EndGroupOutsideGroup);
    }
    if fieldNum <= 0 {
      return Failed(IllegalTag);
    }
    if fieldNum <= known {
      if wireType != 2 {
        return Failed(WrongWireType);
      }
      var len := DecodeVarint(data, tag.next);
      if !len.Value? {
        return Failed(VarintError(len));
      }
      var length := ToInt64(len.value);
      if length < 0 {
        return Failed(InvalidLength);
      }
      var post := AddInt(len.next, length);
      if post < 0 {
        return Failed(InvalidLength);
      }
      if post > |data| {
        return Failed(UnexpectedEof);
      }
      return Known(fieldNum, len.next, post);
    }
    var skippy := SkipGenerated(data[i..]);
    match skippy {
      case Err(e) =>
        return Failed(e);
      case Ok(n) =>
        var next := AddInt(i, n);
        if next < 0 {
          return Failed(InvalidLength);
        }
        if next > |data| {
          return Failed(UnexpectedEof);
        }
        return Skipped(next);
    }
  }

  /** The loop of the Unmarshal methods: it ends on every input, since the index grows. */
  method UnmarshalWith<M>(data: Data, known: nat, apply: (M, int, Data) -> Result<M>, empty: M)
    returns (r: Result<M>)
    ensures r == From(data, 0, known, apply, empty)
  {
    hide ReadTurn;
    var m := empty;
    var i := 0;
    while i < |data|
      invariant 0 <= i <= |data|
      invariant From(data, 0, known, apply, empty) == From(data, i, known, apply, m)
      decreases |data| - i
    {
      var turn := NextTurn(data, i, known);
      match turn {
        case Failed(e) =>
          return Err(e);
        case Skipped(next) =>
          i := next;
        case Known(num, lo, hi) =>
          var applied := apply(m, num, data[lo..hi]);
          if applied.Err? {
            return Err(applied.error);
          }
          m := applied.value;
          i := hi;
      }
    }
    return Ok(m);
  }

  // ------------------------------------------------------------------ round trips

  /** A marshalled field is read back as itself. */
  lemma FieldTurn(pre: seq<Byte>, num: int, payload: seq<Byte>, post: seq<Byte>, known: nat)
    requires 1 <= num <= known && num <= 15
    requires |pre + FieldBytes(8 * num + 2, payload) + post| <= MAX_INT
    ensures var data := pre + FieldBytes(8 * num + 2, payload) + post;
            var hi := |pre| + |FieldBytes(8 * num + 2, payload)|;
            && ReadTurn(data, |pre|, known) == Known(num, hi - |payload|, hi)
            && data[hi - |payload|..hi] == payload
  {
    hide ReadVarint, Sov, BitLen, Field;
    var tag: Byte := 8 * num + 2;
    var i, l := |pre|, |payload|;
    var data := pre + FieldBytes(tag, payload) + post;
    assert FieldNumber(tag) == num && tag % 8 == 2;
    assert ReadVarint(data, i) == Value(tag, i + 1) by {
      assert data == pre + Bytes(tag) + (Bytes(l) + payload + post);
      VarintRoundTrip(pre, tag, Bytes(l) + payload + post);
      BytesLength(tag);
    }
    assert ReadVarint(data, i + 1) == Value(l, i + 1 + Sov(l)) by {
      assert data == (pre + [tag]) + Bytes(l) + (payload + post);
      VarintRoundTrip(pre + [tag], l, payload + post);
    }
    BytesLength(l);
  }

  /** ClusterStatusProxyOptions: Unmarshal undoes Marshal. */
  lemma OptionsRoundTrip(m: ProxyOptions)
    requires |OptionsBytes(m)| <= MAX_INT
    ensures OptionsFrom(OptionsBytes(m)) == Ok(m)
  {
    hide ReadTurn;
    var data := OptionsBytes(m);
    assert [] + data + [] == data;
    FieldTurn([], 1, m.path, [], 1);
    assert From(data, |data|, 1, OptionsField, m) == Ok(m);
  }

  /** ClusterStatus: Unmarshal undoes Marshal when the metadata codec does. */
  lemma StatusRoundTrip<T(!new)>(c: Codec<T>, m: Status<T>)
    requires RoundTrips(c) && |StatusBytes(c, m)| <= MAX_INT
    ensures StatusFrom(c, StatusBytes(c, m)) == Ok(m)
  {
    hide ReadTurn;
    var data := StatusBytes(c, m);
    assert [] + data + [] == data;
    FieldTurn([], 1, c.encode(m.meta), [], 1);
    assert StatusField(c, Status(c.empty), c.encode(m.meta)) == Ok(m);
    assert From(data, |data|, 1, StatusApply(c), m) == Ok(m);
  }

  /** Reading marshalled items appends them in order. */
  lemma {:induction false} ItemsRead<L, T(!new)>(lc: Codec<L>, c: Codec<T>, pre: seq<Byte>,
                                                 items: seq<Status<T>>, m: StatusList<L, T>)
    requires RoundTrips(c) && |pre + ItemsBytes(c, items)| <= MAX_INT
    ensures From(pre + ItemsBytes(c, items), |pre|, 2, ListApply(lc, c), m)
         == Ok(m.(items := m.items + items))
    decreases |items|
  {
    hide ReadTurn, FieldBytes, StatusBytes, StatusFrom;
    if items == [] {
      assert m.items + [] == m.items;
    } else {
      var payload := StatusBytes(c, items[0]);
      var first, rest := FieldBytes(0x12, payload), ItemsBytes(c, items[1..]);
      assert pre + ItemsBytes(c, items) == pre + first + rest;
      FieldTurn(pre, 2, payload, rest, 2);
      StatusRoundTrip(c, items[0]);
      var m' := m.(items := m.items + [items[0]]);
      ItemsRead(lc, c, pre + first, items[1..], m');
      assert m.items + [items[0]] + items[1..] == m.items + items;
    }
  }

  /** ClusterStatusList: Unmarshal undoes Marshal when the two metadata codecs do. */
  lemma ListRoundTrip<L(!new), T(!new)>(lc: Codec<L>, c: Codec<T>, m: StatusList<L, T>)
    requires RoundTrips(lc) && RoundTrips(c) && |ListBytes(lc, c, m)| <= MAX_INT
    ensures ListFrom(lc, c, ListBytes(lc, c, m)) == Ok(m)
  {
    hide ReadTurn, FieldBytes;
    var head, rest := FieldBytes(0xa, lc.encode(m.meta)), ItemsBytes(c, m.items);
    FieldTurn([], 1, lc.encode(m.meta), rest, 2);
    assert [] + head + rest == head + rest;
    ItemsRead(lc, c, head, m.items, StatusList(m.meta, []));
    assert [] + m.items == m.items;
  }

  // ------------------------------------------------------------------ merging and unknown fields

  /** w stands in data from offset off on. */
  predicate Within(w: seq<Byte>, data: seq<Byte>, off: nat)
    requires off + |w| <= |data|
  {
    forall k :: 0 <= k < |w| ==> data[off + k] == w[k]
  }

  lemma {:induction false} ContinuedWithin(w: seq<Byte>, data: seq<Byte>, off: nat, i: nat)
    requires off + |w| <= |data| && Within(w, data, off) && i < |w| && i + Continued(w, i) < |w|
    ensures Continued(data, off + i) == Continued(w, i)
    decreases |w| - i
  {
    assert data[off + i] == w[i];
    if w[i] >= 128 { ContinuedWithin(w, data, off, i + 1); }
  }

  lemma VarintWithin(w: seq<Byte>, data: seq<Byte>, off: nat, i: nat)
    requires off + |w| <= |data| && Within(w, data, off) && i < |w| && ReadVarint(w, i).Value?
    ensures ReadVarint(data, off + i) == Value(ReadVarint(w, i).value, off + ReadVarint(w, i).next)
  {
    ContinuedWithin(w, data, off, i);
    var n := Continued(w, i) + 1;
    assert data[off + i..off + i + n] == w[i..i + n];
  }

  function Moved(t: Token, off: nat): Token {
    match t
    case Bad(e) => t
    case Scalar(n) => Scalar(n + off)
    case Open(n) => Open(n + off)
    case Close(n) => Close(n + off)
  }

  lemma TokenWithin(w: Data, data: Data, off: nat, i: nat)
    requires off + |w| <= |data| && Within(w, data, off) && i < |w|
    requires !ReadToken(w, i).Bad? && ReadToken(w, i).next <= |w|
    ensures ReadToken(data, off + i) == Moved(ReadToken(w, i), off)
  {
    hide ReadVarint, Within;
    VarintWithin(w, data, off, i);
    var tag := ReadVarint(w, i);
    if tag.value % 8 == 0 || tag.value % 8 == 2 {
      VarintWithin(w, data, off, tag.next);
    }
  }

  lemma {:induction false} FieldWithin(w: Data, data: Data, off: nat, i: nat)
    requires off + |w| <= |data| && Within(w, data, off)
    requires Field(w, i).Ok? && Field(w, i).value <= |w|
    ensures Field(data, off + i) == Ok(off + Field(w, i).value)
    decreases |w| - i, 0
  {
    hide ReadToken, Within;
    TokenWithin(w, data, off, i);
    match ReadToken(w, i)
    case Open(next) => GroupWithin(w, data, off, next);
    case _ =>
  }

  lemma {:induction false} GroupWithin(w: Data, data: Data, off: nat, i: nat)
    requires off + |w| <= |data| && Within(w, data, off) && Group(w, i).Ok?
    ensures Group(data, off + i) == Ok(off + Group(w, i).value)
    decreases |w| - i, 1
  {
    hide ReadToken, Within;
    if ReadToken(w, i).Close? {
      TokenWithin(w, data, off, i);
    } else {
      FieldWithin(w, data, off, i);
      TokenWithin(w, data, off, i);
      GroupWithin(w, data, off, Field(w, i).value);
    }
  }

  lemma TurnWithin(w: Data, data: Data, off: nat, i: nat, known: nat)
    requires off + |w| <= |data| && Within(w, data, off) && i < |w| && !ReadTurn(w, i, known).Failed?
    ensures match ReadTurn(w, i, known)
            case Known(num, lo, hi) =>
              && ReadTurn(data, off + i, known) == Known(num, off + lo, off + hi)
              && data[off + lo..off + hi] == w[lo..hi]
            case Skipped(next) => ReadTurn(data, off + i, known) == Skipped(off + next)
  {
    hide ReadVarint, Field;
    VarintWithin(w, data, off, i);
    match ReadTurn(w, i, known)
    case Known(num, lo, hi) =>
      VarintWithin(w, data, off, ReadVarint(w, i).next);
      assert data[off + lo..off + hi] == w[lo..hi];
    case Skipped(next) =>
      FieldWithin(w[i..], data[off + i..], 0, 0);
  }

  /** A message read from part of a buffer behaves as on its own. */
  lemma {:induction false} FromWithin<M>(w: Data, data: Data, off: nat, i: nat, known: nat,
                                         apply: (M, int, Data) -> Result<M>, m: M)
    requires off + |w| <= |data| && Within(w, data, off) && i <= |w| && From(w, i, known, apply, m).Ok?
    ensures From(data, off + i, known, apply, m)
         == From(data, off + |w|, known, apply, From(w, i, known, apply, m).value)
    decreases |w| - i
  {
    hide ReadTurn, Within;
    if i < |w| {
      TurnWithin(w, data, off, i, known);
      match ReadTurn(w, i, known)
      case Known(num, lo, hi) =>
        FromWithin(w, data, off, hi, known, apply, apply(m, num, w[lo..hi]).value);
      case Skipped(next) =>
        FromWithin(w, data, off, next, known, apply, m);
    }
  }

  /** Concatenating encoded messages merges them. */
  lemma ConcatenationMerges<M>(a: Data, b: Data, known: nat, apply: (M, int, Data) -> Result<M>,
                               m0: M, m1: M, m2: M)
    requires |a + b| <= MAX_INT
    requires From(a, 0, known, apply, m0) == Ok(m1) && From(b, 0, known, apply, m1) == Ok(m2)
    ensures From(a + b, 0, known, apply, m0) == Ok(m2)
  {
    hide ReadTurn;
    FromWithin(a, a + b, 0, 0, known, apply, m0);
    FromWithin(b, a + b, |a|, 0, known, apply, m1);
  }

  /** Of two options in a row the last path counts. */
  lemma OptionsLastWins(a: ProxyOptions, b: ProxyOptions)
    requires |OptionsBytes(a) + OptionsBytes(b)| <= MAX_INT
    ensures OptionsFrom(OptionsBytes(a) + OptionsBytes(b)) == Ok(b)
  {
    hide ReadTurn;
    var second := OptionsBytes(b);
    OptionsRoundTrip(a);
    assert [] + second + [] == second;
    FieldTurn([], 1, b.path, [], 1);
    assert From(second, |second|, 1, OptionsField, b) == Ok(b);
    ConcatenationMerges(OptionsBytes(a), second, 1, OptionsField, ProxyOptions([]), a, b);
  }

  /** The metadata of the second status are read into those of the first. */
  lemma StatusesMerge<T(!new)>(c: Codec<T>, a: Status<T>, b: Status<T>, meta: T)
    requires RoundTrips(c) && |StatusBytes(c, a) + StatusBytes(c, b)| <= MAX_INT
    requires c.decodeInto(a.meta, c.encode(b.meta)) == Ok(meta)
    ensures StatusFrom(c, StatusBytes(c, a) + StatusBytes(c, b)) == Ok(Status(meta))
  {
    hide ReadTurn;
    var second := StatusBytes(c, b);
    StatusRoundTrip(c, a);
    assert [] + second + [] == second;
    FieldTurn([], 1, c.encode(b.meta), [], 1);
    assert From(second, |second|, 1, StatusApply(c), Status(meta)) == Ok(Status(meta));
    ConcatenationMerges(StatusBytes(c, a), second, 1, StatusApply(c), Status(c.empty), a, Status(meta));
  }

  /** So are those of a second list, whose items come after those of the first. */
  lemma ListsMerge<L(!new), T(!new)>(lc: Codec<L>, c: Codec<T>, a: StatusList<L, T>, b: StatusList<L, T>, meta: L)
    requires RoundTrips(lc) && RoundTrips(c) && |ListBytes(lc, c, a) + ListBytes(lc, c, b)| <= MAX_INT
    requires lc.decodeInto(a.meta, lc.encode(b.meta)) == Ok(meta)
    ensures ListFrom(lc, c, ListBytes(lc, c, a) + ListBytes(lc, c, b)) == Ok(StatusList(meta, a.items + b.items))
  {
    hide ReadTurn, FieldBytes;
    var head, rest := FieldBytes(0xa, lc.encode(b.meta)), ItemsBytes(c, b.items);
    ListRoundTrip(lc, c, a);
    FieldTurn([], 1, lc.encode(b.meta), rest, 2);
    assert [] + head + rest == head + rest;
    ItemsRead(lc, c, head, b.items, StatusList(meta, a.items));
    ConcatenationMerges(ListBytes(lc, c, a), head + rest, 2, ListApply(lc, c), StatusList(lc.empty, []), a,
                        StatusList(meta, a.items + b.items));
  }

  /** A well-formed field of an unknown number, groups included, may stand between any two
      fields without changing what is read. */
  lemma UnknownFieldIgnored<M>(a: Data, u: Data, b: Data, known: nat, apply: (M, int, Data) -> Result<M>,
                               m0: M, m1: M, m2: M)
    requires |a + u + b| <= MAX_INT
    requires From(a, 0, known, apply, m0) == Ok(m1) && From(b, 0, known, apply, m1) == Ok(m2)
    requires Field(u, 0) == Ok(|u|) && FieldNumber(ReadVarint(u, 0).value) > known
    ensures From(a + u + b, 0, known, apply, m0) == Ok(m2)
  {
    assert u[0..] == u;
    assert ReadTurn(u, 0, known) == Skipped(|u|);
    assert From(u, 0, known, apply, m1) == Ok(m1);
    ConcatenationMerges(a, u, known, apply, m0, m1, m1);
    ConcatenationMerges(a + u, b, known, apply, m0, m1, m2);
  }
}
