/** What a field is on the wire, byte by byte, and that skipping steps over exactly that. */
module WireGrammar {
  import opened Varint
  import opened Wire

  /** At most ten bytes, of which all but the last have the continuation bit. */
  predicate IsVarint(s: seq<Byte>) {
    1 <= |s| <= 10 && s[|s| - 1] < 128 && forall k :: 0 <= k < |s| - 1 ==> s[k] >= 128
  }

  function Number(s: seq<Byte>): Uint64 {
    Low64(Payload(s))
  }

  predicate IsTag(s: seq<Byte>, wireType: nat) {
    IsVarint(s) && Number(s) % 8 == wireType
  }

  /** The fields of the encoding, after their wire types. */
  datatype Chunk =
    | VarintField(tag: seq<Byte>, value: seq<Byte>)
    | Fixed64(tag: seq<Byte>, body: seq<Byte>)
    | Delimited(tag: seq<Byte>, length: seq<Byte>, body: seq<Byte>)
    | GroupOf(tag: seq<Byte>, members: Chunks, closing: seq<Byte>)
    | Fixed32(tag: seq<Byte>, body: seq<Byte>)

  datatype Chunks = Nothing | Then(first: Chunk, rest: Chunks)

  /** Lengths and wire types are right; a closing tag may have another field number. */
  predicate Legal(c: Chunk) {
    match c
    case VarintField(tag, value) => IsTag(tag, 0) && IsVarint(value)
    case Fixed64(tag, body) => IsTag(tag, 1) && |body| == 8
    case Delimited(tag, length, body) => IsTag(tag, 2) && IsVarint(length) && |body| == Number(length)
    case GroupOf(tag, members, closing) => IsTag(tag, 3) && AllLegal(members) && IsTag(closing, 4)
    case Fixed32(tag, body) => IsTag(tag, 5) && |body| == 4
  }

  predicate AllLegal(cs: Chunks) {
    cs.Then? ==> Legal(cs.first) && AllLegal(cs.rest)
  }

  function Flat(c: Chunk): seq<Byte> {
    match c
    case VarintField(tag, value) => tag + value
    case Fixed64(tag, body) => tag + body
    case Delimited(tag, length, body) => tag + length + body
    case GroupOf(tag, members, closing) => tag + (FlatAll(members) + closing)
    case Fixed32(tag, body) => tag + body
  }

  function FlatAll(cs: Chunks): seq<Byte> {
    if cs.Nothing? then [] else Flat(cs.first) + FlatAll(cs.rest)
  }

  /** The bytes stand in the data from i on. */
  predicate StandsAt(s: seq<Byte>, data: seq<Byte>, i: nat) {
    i + |s| <= |data| && data[i..i + |s|] == s
  }

  lemma StandsInParts(a: seq<Byte>, b: seq<Byte>, data: seq<Byte>, i: nat)
    ensures StandsAt(a + b, data, i) <==> StandsAt(a, data, i) && StandsAt(b, data, i + |a|)
  {
    if StandsAt(a + b, data, i) {
      assert data[i..i + |a|] == data[i..i + |a + b|][..|a|];
      assert data[i + |a|..i + |a| + |b|] == data[i..i + |a + b|][|a|..];
    }
    if StandsAt(a, data, i) && StandsAt(b, data, i + |a|) {
      assert data[i..i + |a + b|] == data[i..i + |a|] + data[i + |a|..i + |a| + |b|];
    }
  }

  // ------------------------------------------------------------------ varints

  lemma {:induction false} ContinuedTo(s: seq<Byte>, data: seq<Byte>, i: nat, k: nat)
    requires IsVarint(s) && StandsAt(s, data, i) && k < |s|
    ensures Continued(data, i + k) == |s| - 1 - k
    decreases |s| - k
  {
    assert data[i + k] == data[i..i + |s|][k];
    if k < |s| - 1 {
      ContinuedTo(s, data, i, k + 1);
    }
  }

  /** A varint is read wherever it stands, and whatever is read is one. */
  lemma ReadsVarint(s: seq<Byte>, data: seq<Byte>, i: nat)
    requires i <= |data|
    ensures IsVarint(s) && StandsAt(s, data, i) <==>
              ReadVarint(data, i).Value? && s == data[i..ReadVarint(data, i).next]
    ensures IsVarint(s) && StandsAt(s, data, i) ==> ReadVarint(data, i) == Value(Number(s), i + |s|)
  {
    hide Payload, Low64;
    if IsVarint(s) && StandsAt(s, data, i) {
      ContinuedTo(s, data, i, 0);
    }
    if ReadVarint(data, i).Value? && s == data[i..ReadVarint(data, i).next] {
      var n := Continued(data, i);
      assert forall k :: 0 <= k < |s| ==> s[k] == data[i + k];
    }
  }

  // ------------------------------------------------------------------ fields are skipped

  lemma {:induction false} LegalIsField(c: Chunk, data: Data, i: nat)
    requires Legal(c) && StandsAt(Flat(c), data, i)
    ensures Field(data, i) == Ok(i + |Flat(c)|)
    decreases c
  {
    hide ReadVarint, StandsAt, IsVarint, Number;
    match c
    case VarintField(tag, value) =>
      TagThen(tag, value, data, i);
      ReadsVarint(value, data, i + |tag|);
    case Fixed64(tag, body) =>
      TagThen(tag, body, data, i);
    case Fixed32(tag, body) =>
      TagThen(tag, body, data, i);
    case Delimited(tag, length, body) =>
      DelimitedIsField(tag, length, body, data, i);
    case GroupOf(tag, members, closing) =>
      TagThen(tag, FlatAll(members) + closing, data, i);
      LegalAreGroup(members, closing, data, i + |tag|);
  }

  lemma DelimitedIsField(tag: seq<Byte>, length: seq<Byte>, body: seq<Byte>, data: Data, i: nat)
    requires IsTag(tag, 2) && IsVarint(length) && |body| == Number(length)
    requires StandsAt(tag + length + body, data, i)
    ensures Field(data, i) == Ok(i + |tag + length + body|)
  {
    hide ReadVarint, StandsAt, IsVarint, Number;
    assert tag + length + body == tag + (length + body);
    TagThen(tag, length + body, data, i);
    StandsInParts(length, body, data, i + |tag|);
    ReadsVarint(length, data, i + |tag|);
    StandsFits(body, data, i + |tag| + |length|);
  }

  lemma StandsFits(s: seq<Byte>, data: seq<Byte>, i: nat)
    requires StandsAt(s, data, i)
    ensures i + |s| <= |data|
  {
  }

  /** A tag is read, and the rest stands behind it. */
  lemma TagThen(tag: seq<Byte>, rest: seq<Byte>, data: seq<Byte>, i: nat)
    requires IsVarint(tag) && StandsAt(tag + rest, data, i)
    ensures i + |tag| + |rest| <= |data| && |tag| > 0
    ensures ReadVarint(data, i) == Value(Number(tag), i + |tag|)
    ensures StandsAt(tag, data, i) && StandsAt(rest, data, i + |tag|)
  {
    StandsInParts(tag, rest, data, i);
    ReadsVarint(tag, data, i);
  }

  lemma {:induction false} LegalAreGroup(cs: Chunks, closing: seq<Byte>, data: Data, i: nat)
    requires AllLegal(cs) && IsTag(closing, 4) && StandsAt(FlatAll(cs) + closing, data, i)
    ensures Group(data, i) == Ok(i + |FlatAll(cs) + closing|)
    decreases cs
  {
    hide ReadVarint, StandsAt, IsVarint, Number, Legal, Flat;
    if cs.Nothing? {
      assert [] + closing == closing + [];
      TagThen(closing, [], data, i);
    } else {
      var first, rest := Flat(cs.first), FlatAll(cs.rest) + closing;
      assert FlatAll(cs) + closing == first + rest;
      StandsInParts(first, rest, data, i);
      LegalIsField(cs.first, data, i);
      LegalAreGroup(cs.rest, closing, data, i + |first|);
      hide ReadToken;
      assert !ReadToken(data, i).Close?;
    }
  }

  // ------------------------------------------------------------------ what is skipped is a field

  lemma {:induction false} FieldIsLegal(data: Data, i: nat) returns (c: Chunk)
    requires Field(data, i).Ok? && Field(data, i).value <= |data|
    ensures Legal(c) && data[i..Field(data, i).value] == Flat(c)
    decreases |data| - i, 0
  {
    hide ReadVarint, IsVarint, Number;
    var at := ReadVarint(data, i).next;
    var tag := data[i..at];
    VarintStands(data, i);
    match ReadVarint(data, i).value % 8
    case 0 =>
      var next := ReadVarint(data, at).next;
      VarintStands(data, at);
      c := VarintField(tag, data[at..next]);
      assert data[i..next] == tag + data[at..next];
    case 1 =>
      c := Fixed64(tag, data[at..at + 8]);
    case 2 =>
      var start := ReadVarint(data, at).next;
      VarintStands(data, at);
      c := Delimited(tag, data[at..start], data[start..Field(data, i).value]);
    case 3 =>
      var members, closing := GroupIsLegal(data, at);
      c := GroupOf(tag, members, closing);
      assert data[i..Field(data, i).value] == tag + data[at..Field(data, i).value];
    case _ =>
      c := Fixed32(tag, data[at..at + 4]);
  }

  lemma VarintStands(data: seq<Byte>, i: nat)
    requires i <= |data| && ReadVarint(data, i).Value?
    ensures var r := ReadVarint(data, i); IsVarint(data[i..r.next]) && Number(data[i..r.next]) == r.value
  {
    ReadsVarint(data[i..ReadVarint(data, i).next], data, i);
  }

  lemma {:induction false} GroupIsLegal(data: Data, i: nat) returns (cs: Chunks, closing: seq<Byte>)
    requires Group(data, i).Ok?
    ensures AllLegal(cs) && IsTag(closing, 4) && data[i..Group(data, i).value] == FlatAll(cs) + closing
    decreases |data| - i, 1
  {
    hide ReadVarint, IsVarint, Number, Legal, Flat;
    var end := Group(data, i).value;
    if ReadToken(data, i).Close? {
      VarintStands(data, i);
      cs, closing := Nothing, data[i..end];
      assert [] + closing == closing;
    } else {
      hide ReadToken;
      var next := Field(data, i).value;
      var first := FieldIsLegal(data, i);
      var rest;
      rest, closing := GroupIsLegal(data, next);
      cs := Then(first, rest);
      assert data[i..end] == data[i..next] + data[next..end];
      assert FlatAll(cs) + closing == Flat(first) + (FlatAll(rest) + closing);
    }
  }

  /** The bytes are one field. */
  ghost predicate IsField(s: seq<Byte>) {
    exists c :: Legal(c) && Flat(c) == s
  }

  /** skipGenerated steps exactly over what is a field of the encoding, groups with their members
      included, and over nothing else that lies within the data. */
  lemma SkipsExactlyFields(data: Data, i: nat, next: nat)
    requires i <= next <= |data|
    ensures Field(data, i) == Ok(next) <==> IsField(data[i..next])
  {
    hide Field, Legal, Flat;
    if Field(data, i) == Ok(next) {
      var c := FieldIsLegal(data, i);
    }
    if IsField(data[i..next]) {
      var c :| Legal(c) && Flat(c) == data[i..next];
      assert StandsAt(Flat(c), data, i);
      LegalIsField(c, data, i);
    }
  }

  // ------------------------------------------------------------------ encoded fields

  /** The shortest encoding is a varint and stands for the number. */
  lemma BytesAreVarint(x: Uint64)
    ensures IsVarint(Bytes(x)) && Number(Bytes(x)) == x
  {
    hide Payload, Low64, Continued;
    VarintRoundTrip([], x, []);
    assert [] + Bytes(x) + [] == Bytes(x);
    BytesLength(x);
    VarintStands(Bytes(x), 0);
    assert Bytes(x)[0..|Bytes(x)|] == Bytes(x);
  }

  /** The example of the Protocol Buffers encoding specification, section "Base 128 Varints". */
  lemma OneHundredAndFifty()
    ensures Bytes(150) == [0x96, 0x01]
  {
  }

  lemma FieldThen(c: Chunk, post: seq<Byte>)
    requires Legal(c) && |Flat(c) + post| <= MAX_INT
    ensures Field(Flat(c) + post, 0) == Ok(|Flat(c)|)
  {
    hide Legal, Flat;
    LegalIsField(c, Flat(c) + post, 0);
  }

  /** Behind a tag of type 0 skipping ends after the varint. */
  lemma SkipsVarint(tag: Uint64, x: Uint64, post: seq<Byte>)
    requires tag % 8 == 0 && |Bytes(tag) + Bytes(x) + post| <= MAX_INT
    ensures Field(Bytes(tag) + Bytes(x) + post, 0) == Ok(Sov(tag) + Sov(x))
  {
    hide Field, Number, IsVarint, Sov;
    BytesAreVarint(tag);
    BytesAreVarint(x);
    BytesLength(tag);
    BytesLength(x);
    hide Bytes;
    FieldThen(VarintField(Bytes(tag), Bytes(x)), post);
  }

  /** Behind a tag of type 1 after eight bytes, and behind one of type 5 after four. */
  lemma SkipsFixed(tag: Uint64, body: seq<Byte>, post: seq<Byte>)
    requires (tag % 8 == 1 && |body| == 8) || (tag % 8 == 5 && |body| == 4)
    requires |Bytes(tag) + body + post| <= MAX_INT
    ensures Field(Bytes(tag) + body + post, 0) == Ok(Sov(tag) + |body|)
  {
    hide Field, Number, IsVarint, Sov;
    BytesAreVarint(tag);
    BytesLength(tag);
    hide Bytes;
    FieldThen(if |body| == 8 then Fixed64(Bytes(tag), body) else Fixed32(Bytes(tag), body), post);
  }

  /** Behind a tag of type 2 after as many bytes as the length says. */
  lemma SkipsDelimited(tag: Uint64, body: seq<Byte>, post: seq<Byte>)
    requires tag % 8 == 2 && |body| <= MAX_INT && |Bytes(tag) + Bytes(|body|) + body + post| <= MAX_INT
    ensures Field(Bytes(tag) + Bytes(|body|) + body + post, 0) == Ok(Sov(tag) + Sov(|body|) + |body|)
  {
    hide Field, Number, IsVarint, Sov;
    BytesAreVarint(tag);
    BytesAreVarint(|body|);
    BytesLength(tag);
    BytesLength(|body|);
    hide Bytes;
    FieldThen(Delimited(Bytes(tag), Bytes(|body|), body), post);
  }

  /** A group ends behind its closing tag, whatever fields, groups among them, lie between. */
  lemma SkipsGroups(tag: Uint64, members: Chunks, closing: Uint64, post: seq<Byte>)
    requires tag % 8 == 3 && AllLegal(members) && closing % 8 == 4
    requires |Bytes(tag) + (FlatAll(members) + Bytes(closing)) + post| <= MAX_INT
    ensures Field(Bytes(tag) + (FlatAll(members) + Bytes(closing)) + post, 0)
         == Ok(|Bytes(tag)| + |FlatAll(members)| + |Bytes(closing)|)
  {
    hide Number, IsVarint, AllLegal, FlatAll;
    BytesAreVarint(tag);
    BytesAreVarint(closing);
    hide Bytes;
    FieldThen(GroupOf(Bytes(tag), members, Bytes(closing)), post);
  }

  /** No field begins with a closing tag or with one of the two unused wire types. */
  lemma SkipsNothingElse(tag: Uint64, post: seq<Byte>)
    requires |Bytes(tag) + post| <= MAX_INT
    ensures tag % 8 == 4 ==> Field(Bytes(tag) + post, 0) == Err(UnexpectedEndOfGroup)
    ensures tag % 8 >= 6 ==> Field(Bytes(tag) + post, 0) == Err(IllegalWireType)
  {
    VarintRoundTrip([], tag, post);
    assert [] + Bytes(tag) + post == Bytes(tag) + post;
    hide ReadVarint;
  }

  /** Nor does one begin with ten continued bytes, or where the data ends before a tag does. */
  lemma SkipsNoBadTag(data: Data, i: nat)
    requires i <= |data|
    ensures i + 10 <= |data| && (forall k :: i <= k < i + 10 ==> data[k] >= 128) ==> Field(data, i) == Err(IntOverflow)
    ensures |data| < i + 10 && (forall k :: i <= k < |data| ==> data[k] >= 128) ==> Field(data, i) == Err(UnexpectedEof)
  {
    var n := Continued(data, i);
    assert i + n < |data| ==> data[i + n] < 128;
  }
}
