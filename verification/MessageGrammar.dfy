/** Which byte strings unmarshalling accepts, and what it makes of them. */
module MessageGrammar {
  import opened Varint
  import opened Wire
  import opened Messages
  import opened Unmarshal
  import opened WireGrammar

  function NumberOf(c: Chunk): int {
    FieldNumber(Number(c.tag))
  }

  /** A field of the encoding with a positive number, which is delimited if the message knows it. */
  predicate Readable(c: Chunk, known: nat) {
    && Legal(c) && NumberOf(c) >= 1
    && (NumberOf(c) <= known ==> c.Delimited? && |c.body| <= MAX_INT)
  }

  predicate AllReadable(cs: Chunks, known: nat) {
    cs.Then? ==> Readable(cs.first, known) && AllReadable(cs.rest, known)
  }

  /** The known fields are applied in order, the others have no effect. */
  function Applied<M>(cs: Chunks, known: nat, apply: (M, int, Data) -> Result<M>, m: M): Result<M>
    requires AllReadable(cs, known)
  {
    if cs.Nothing? then Ok(m)
    else if NumberOf(cs.first) > known then Applied(cs.rest, known, apply, m)
    else
      match apply(m, NumberOf(cs.first), cs.first.body)
      case Err(e) => Err(e)
      case Ok(m') => Applied(cs.rest, known, apply, m')
  }

  /** One turn reads one field. */
  lemma TurnOfChunk(c: Chunk, data: Data, i: nat, known: nat)
    requires Readable(c, known) && StandsAt(Flat(c), data, i)
    ensures i < |data|
    ensures var next := i + |Flat(c)|;
            if NumberOf(c) > known then ReadTurn(data, i, known) == Skipped(next)
            else
              && ReadTurn(data, i, known) == Known(NumberOf(c), next - |c.body|, next)
              && data[next - |c.body|..next] == c.body
  {
    hide ReadVarint, IsVarint, Number, Field, FieldNumber;
    if NumberOf(c) > known {
      UnknownTurn(c, data, i, known);
    } else {
      KnownTurn(c, data, i, known);
    }
  }

  lemma TagOf(c: Chunk, data: Data, i: nat)
    requires Legal(c) && StandsAt(Flat(c), data, i)
    ensures i < i + |Flat(c)| <= |data| && Number(c.tag) % 8 != 4
    ensures ReadVarint(data, i) == Value(Number(c.tag), i + |c.tag|)
  {
    hide ReadVarint, IsVarint, Number, StandsAt;
    match c
    case VarintField(tag, value) => TagThen(tag, value, data, i);
    case Fixed64(tag, body) => TagThen(tag, body, data, i);
    case Fixed32(tag, body) => TagThen(tag, body, data, i);
    case Delimited(tag, length, body) =>
      assert tag + length + body == tag + (length + body);
      TagThen(tag, length + body, data, i);
    case GroupOf(tag, members, closing) => TagThen(tag, FlatAll(members) + closing, data, i);
  }

  lemma UnknownTurn(c: Chunk, data: Data, i: nat, known: nat)
    requires Legal(c) && NumberOf(c) > known && StandsAt(Flat(c), data, i)
    ensures ReadTurn(data, i, known) == Skipped(i + |Flat(c)|)
  {
    TagOf(c, data, i);
    hide ReadVarint, IsVarint, Number, Field, FieldNumber, Legal;
    assert data[i..][0..|Flat(c)|] == data[i..i + |Flat(c)|];
    LegalIsField(c, data[i..], 0);
  }

  lemma KnownTurn(c: Chunk, data: Data, i: nat, known: nat)
    requires Legal(c) && 1 <= NumberOf(c) <= known && c.Delimited? && StandsAt(Flat(c), data, i)
    ensures var next := i + |Flat(c)|;
            && ReadTurn(data, i, known) == Known(NumberOf(c), next - |c.body|, next)
            && data[next - |c.body|..next] == c.body
  {
    hide ReadVarint, IsVarint, Number, Field, FieldNumber;
    var tag, length, body := c.tag, c.length, c.body;
    assert tag + length + body == tag + (length + body);
    TagThen(tag, length + body, data, i);
    StandsInParts(length, body, data, i + |tag|);
    ReadsVarint(length, data, i + |tag|);
  }

  /** Whatever a turn accepts is one field. */
  lemma ChunkOfTurn(data: Data, i: nat, known: nat) returns (c: Chunk)
    requires i < |data| && !ReadTurn(data, i, known).Failed?
    ensures Readable(c, known) && StandsAt(Flat(c), data, i)
    ensures match ReadTurn(data, i, known)
            case Known(num, lo, hi) => num == NumberOf(c) <= known && hi == i + |Flat(c)| && data[lo..hi] == c.body
            case Skipped(next) => NumberOf(c) > known && next == i + |Flat(c)|
  {
    hide ReadVarint, IsVarint, Number, FieldNumber, Field;
    VarintStands(data, i);
    var at := ReadVarint(data, i).next;
    match ReadTurn(data, i, known)
    case Known(num, lo, hi) =>
      VarintStands(data, at);
      c := Delimited(data[i..at], data[at..lo], data[lo..hi]);
      assert data[i..hi] == data[i..at] + data[at..lo] + data[lo..hi];
    case Skipped(next) =>
      c := FieldIsLegal(data[i..], 0);
      assert data[i..][0..next - i] == data[i..next];
      TagOf(c, data, i);
  }

  /** Reading a sequence of fields applies them. */
  lemma {:induction false} ReadsParts<M>(cs: Chunks, data: Data, i: nat, known: nat,
                                         apply: (M, int, Data) -> Result<M>, m: M)
    requires AllReadable(cs, known) && i + |FlatAll(cs)| == |data| && data[i..] == FlatAll(cs)
    ensures From(data, i, known, apply, m) == Applied(cs, known, apply, m)
    decreases cs
  {
    hide Readable, ReadTurn, Flat, NumberOf;
    if cs.Then? {
      var first, next := Flat(cs.first), i + |Flat(cs.first)|;
      assert data[i..next] == data[i..][..|first|];
      assert data[next..] == data[i..][|first|..];
      TurnOfChunk(cs.first, data, i, known);
      if NumberOf(cs.first) > known {
        ReadsParts(cs.rest, data, next, known, apply, m);
      } else {
        KnownAreDelimited(cs.first, known);
        var applied := apply(m, NumberOf(cs.first), cs.first.body);
        if applied.Ok? {
          ReadsParts(cs.rest, data, next, known, apply, applied.value);
        }
      }
    }
  }

  lemma KnownAreDelimited(c: Chunk, known: nat)
    requires Readable(c, known) && NumberOf(c) <= known
    ensures c.Delimited? && |c.body| <= MAX_INT
  {
  }

  /** What is accepted is a sequence of fields. */
  lemma {:induction false} PartsOf<M>(data: Data, i: nat, known: nat, apply: (M, int, Data) -> Result<M>, m: M)
    returns (cs: Chunks)
    requires i <= |data| && From(data, i, known, apply, m).Ok?
    ensures AllReadable(cs, known) && data[i..] == FlatAll(cs)
    decreases |data| - i
  {
    hide ReadTurn, Readable, Flat;
    if i == |data| {
      cs := Nothing;
    } else {
      var c := ChunkOfTurn(data, i, known);
      var next := i + |Flat(c)|;
      var rest;
      match ReadTurn(data, i, known) {
        case Known(num, lo, hi) => rest := PartsOf(data, next, known, apply, apply(m, num, data[lo..hi]).value);
        case Skipped(_) => rest := PartsOf(data, next, known, apply, m);
      }
      cs := Then(c, rest);
      assert data[i..] == data[i..next] + data[next..];
    }
  }

  /** The bytes are a sequence of fields, from which the known ones make the message. */
  ghost predicate Spells<M(!new)>(data: seq<Byte>, known: nat, apply: (M, int, Data) -> Result<M>, m: M, m': M) {
    exists cs :: AllReadable(cs, known) && FlatAll(cs) == data && Applied(cs, known, apply, m) == Ok(m')
  }

  /** Unmarshalling succeeds exactly on sequences of fields with positive numbers, in which the
      known ones are delimited and accepted, and then yields what these make in order. */
  lemma UnmarshalsExactlyWhen<M(!new)>(data: Data, known: nat, apply: (M, int, Data) -> Result<M>, m: M, m': M)
    ensures From(data, 0, known, apply, m) == Ok(m') <==> Spells(data, known, apply, m, m')
  {
    assert data[0..] == data;
    if From(data, 0, known, apply, m) == Ok(m') {
      var cs := PartsOf(data, 0, known, apply, m);
      ReadsParts(cs, data, 0, known, apply, m);
    }
    if cs :| AllReadable(cs, known) && FlatAll(cs) == data && Applied(cs, known, apply, m) == Ok(m') {
      ReadsParts(cs, data, 0, known, apply, m);
    }
  }

  /** A field that is cut short is noticed. */
  lemma CutFieldFails(c: Chunk, n: nat, known: nat)
    requires Readable(c, known) && 0 < n < |Flat(c)| <= MAX_INT
    ensures ReadTurn(Flat(c)[..n], 0, known).Failed?
  {
    hide Readable, ReadTurn, NumberOf;
    var data: Data, cut: Data := Flat(c), Flat(c)[..n];
    if !ReadTurn(cut, 0, known).Failed? {
      var d := ChunkOfTurn(cut, 0, known);
      assert StandsAt(Flat(d), data, 0) by { assert data[0..|Flat(d)|] == cut[0..|Flat(d)|]; }
      assert StandsAt(Flat(c), data, 0);
      TurnOfChunk(c, data, 0, known);
      TurnOfChunk(d, data, 0, known);
      assert false;
    }
  }

  /** The errors of a turn that a tag alone decides. */
  lemma TagFails(tag: Uint64, post: seq<Byte>, known: nat)
    requires |Bytes(tag) + post| <= MAX_INT
    ensures var turn := ReadTurn(Bytes(tag) + post, 0, known);
            && (tag % 8 == 4 ==> turn == Failed(EndGroupOutsideGroup))
            && (tag % 8 != 4 && tag < 8 ==> turn == Failed(IllegalTag))
            && (tag % 8 !in {2, 4} && tag < 0x4_0000_0000 && 1 <= tag / 8 <= known ==> turn == Failed(WrongWireType))
  {
    hide ReadVarint, Field, Sov;
    VarintRoundTrip([], tag, post);
    assert [] + Bytes(tag) + post == Bytes(tag) + post;
  }

  /** A known field whose length is no int, or goes past the end of the data, fails. */
  lemma LengthFails(tag: Uint64, length: Uint64, post: seq<Byte>, known: nat)
    requires tag % 8 == 2 && tag < 0x4_0000_0000 && 1 <= tag / 8 <= known
    requires length > |post| && |Bytes(tag) + Bytes(length) + post| <= MAX_INT
    ensures ReadTurn(Bytes(tag) + Bytes(length) + post, 0, known) ==
              Failed(if |Bytes(tag) + Bytes(length)| + length > MAX_INT then InvalidLength else UnexpectedEof)
  {
    hide ReadVarint, Field, Sov, Bytes;
    var t, l := Bytes(tag), Bytes(length);
    VarintRoundTrip([], tag, l + post);
    assert [] + t + (l + post) == t + l + post;
    VarintRoundTrip(t, length, post);
    BytesLength(tag);
    BytesLength(length);
  }
}
