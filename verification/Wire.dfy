/** The wire codec of ClusterStatus, ClusterStatusList and ClusterStatusProxyOptions. */
module Wire {
  import opened Varint

  const MAX_INT: int := 0x7fff_ffff_ffff_ffff

  /** A Go byte slice: its length is an int. */
  type Data = s: seq<Byte> | |s| <= 0x7fff_ffff_ffff_ffff

  datatype WireError =
    | IntOverflow | UnexpectedEof | InvalidLength | UnexpectedEndOfGroup | IllegalWireType
    | EndGroupOutsideGroup | IllegalTag | WrongWireType | BadMessage

  datatype Result<+T> = Ok(value: T) | Err(error: WireError)

  /** Go's int(x) for a 64-bit x: two's complement. */
  function ToInt64(x: Uint64): int {
    if x <= MAX_INT then x else x - TWO64
  }

  /** Go's int sum of two non-negative ints. */
  function AddInt(a: int, b: int): int
    requires 0 <= a <= MAX_INT && 0 <= b <= MAX_INT
  {
    if a + b <= MAX_INT then a + b else a + b - TWO64
  }

  /** Go's int32(wire >> 3). */
  function FieldNumber(wire: Uint64): int {
    var low := wire / 8 % 0x1_0000_0000;
    if low < 0x8000_0000 then low else low - 0x1_0000_0000
  }

  /** Each conversion keeps the value modulo the width and is within the range of its type. */
  lemma ConversionsWrap(x: Uint64, a: int, b: int)
    requires 0 <= a <= MAX_INT && 0 <= b <= MAX_INT
    ensures -0x8000_0000 <= FieldNumber(x) < 0x8000_0000 && (FieldNumber(x) - x / 8) % 0x1_0000_0000 == 0
    ensures -0x8000_0000_0000_0000 <= ToInt64(x) <= MAX_INT && (ToInt64(x) - x) % TWO64 == 0
    ensures -0x8000_0000_0000_0000 <= AddInt(a, b) <= MAX_INT && (AddInt(a, b) - (a + b)) % TWO64 == 0
  {
    var turns := x / 8 / 0x1_0000_0000 + if FieldNumber(x) < 0 then 1 else 0;
    assert FieldNumber(x) - x / 8 == -0x1_0000_0000 * turns;
  }

  // ------------------------------------------------------------------ skipping

  /** A tag with the body that belongs to it: a closed scalar, or one end of a group. */
  datatype Token = Scalar(next: int) | Open(next: int) | Close(next: int) | Bad(error: WireError)

  function VarintError(d: Decoded): WireError
    requires !d.Value?
  {
    if d.Overflow? then IntOverflow else UnexpectedEof
  }

  function Advance(i: int, count: int): Token
    requires 0 <= i <= MAX_INT && 0 <= count <= MAX_INT
  {
    var next := AddInt(i, count);
    if next < 0 then Bad(InvalidLength) else Scalar(next)
  }

  function ReadToken(data: Data, i: nat): (t: Token)
    requires i < |data|
    ensures !t.Bad? ==> i < t.next <= MAX_INT
    ensures t.Open? || t.Close? ==> t.next <= |data|
  {
    match ReadVarint(data, i)
    case Overflow => Bad(IntOverflow)
    case Truncated => Bad(UnexpectedEof)
    case Value(wire, at) =>
      var wireType := wire % 8;
      if wireType == 0 then
        var body := ReadVarint(data, at);
        if body.Value? then Scalar(body.next) else Bad(VarintError(body))
      else if wireType == 1 then Advance(at, 8)
      else if wireType == 2 then
        var len := ReadVarint(data, at);
        if !len.Value? then Bad(VarintError(len))
        else if ToInt64(len.value) < 0 then Bad(InvalidLength)
        else Advance(len.next, ToInt64(len.value))
      else if wireType == 3 then Open(at)
      else if wireType == 4 then Close(at)
      else if wireType == 5 then Advance(at, 4)
      else Bad(IllegalWireType)
  }

  /** The grammar of one field: a scalar, or an opening tag, fields and the closing tag.
      It yields the offset behind the field. */
  function Field(data: Data, i: nat): (r: Result<nat>)
    ensures r.Ok? ==> i < r.value <= MAX_INT
    decreases |data| - i, 0
  {
    if i >= |data| then Err(UnexpectedEof)
    else
      match ReadToken(data, i)
      case Bad(e) => Err(e)
      case Scalar(next) => Ok(next)
      case Close(_) => Err(UnexpectedEndOfGroup)
      case Open(next) => Group(data, next)
  }

  /** The rest of a group whose opening tag has been read: fields up to the closing tag. */
  function Group(data: Data, i: nat): (r: Result<nat>)
    ensures r.Ok? ==> i < r.value <= |data|
    decreases |data| - i, 1
  {
    if i >= |data| then Err(UnexpectedEof)
    else if ReadToken(data, i).Close? then Ok(ReadToken(data, i).next)
    else
      match Field(data, i)
      case Err(e) => Err(e)
      case Ok(next) => Group(data, next)
  }

  /** The ends of depth nested groups, one after the other. */
  function Groups(data: Data, i: nat, depth: nat): (r: Result<nat>)
    decreases depth
  {
    if depth == 0 then Ok(i)
    else
      match Group(data, i)
      case Err(e) => Err(e)
      case Ok(next) => Groups(data, next, depth - 1)
  }

  /** What is left to read with depth groups open; at depth 0 a whole field. */
  function Remaining(data: Data, i: nat, depth: nat): Result<nat> {
    if depth == 0 then Field(data, i) else Groups(data, i, depth)
  }

  /** What is left to read after a token. */
  function After(data: Data, token: Token, depth: nat): Result<nat>
    requires !token.Bad? ==> token.next >= 0
  {
    match token
    case Bad(e) => Err(e)
    case Scalar(next) => if depth == 0 then Ok(next) else Groups(data, next, depth)
    case Open(next) => Groups(data, next, depth + 1)
    case Close(next) => if depth == 0 then Err(UnexpectedEndOfGroup) else Groups(data, next, depth - 1)
  }

  /** Counting depth and reading groups recursively come to the same. */
  lemma TokenStep(data: Data, i: nat, depth: nat)
    requires i < |data|
    ensures Remaining(data, i, depth) == After(data, ReadToken(data, i), depth)
  {
    hide ReadToken;
    match ReadToken(data, i)
    case Bad(e) =>
      assert Field(data, i) == Err(e) && Group(data, i) == Err(e);
    case Close(next) =>
      assert Group(data, i) == Ok(next);
    case Scalar(next) =>
      assert Group(data, i) == Group(data, next);
    case Open(next) =>
      assert Field(data, i) == Group(data, next);
      OneGroup(data, next);
      assert Groups(data, next, depth + 1) ==
        match Group(data, next) case Err(e) => Err(e) case Ok(n) => Groups(data, n, depth);
  }

  lemma OneGroup(data: Data, i: nat)
    ensures Groups(data, i, 1) == Group(data, i)
  {
  }

  lemma NothingLeft(data: Data, i: nat, depth: nat)
    requires i >= |data|
    ensures Remaining(data, i, depth) == Err(UnexpectedEof)
  {
  }

  /** The varint reads and the switch on the wire type of skipGenerated. */
  method NextToken(data: Data, i: nat) returns (t: Token)
    requires i < |data|
    ensures t == ReadToken(data, i)
  {
    var tag := DecodeVarint(data, i);
    if !tag.Value? {
      return Bad(VarintError(tag));
    }
    var at := tag.next;
    match tag.value % 8 {
      case 0 =>
        var body := DecodeVarint(data, at);
        t := if body.Value? then Scalar(body.next) else Bad(VarintError(body));
      case 1 =>
        t := Advance(at, 8);
      case 2 =>
        var len := DecodeVarint(data, at);
        if !len.Value? {
          return Bad(VarintError(len));
        }
        if ToInt64(len.value) < 0 {
          return Bad(InvalidLength);
        }
        t := Advance(len.next, ToInt64(len.value));
      case 3 =>
        t := Open(at);
      case 4 =>
        t := Close(at);
      case 5 =>
        t := Advance(at, 4);
      case _ =>
        t := Bad(IllegalWireType);
    }
  }

  /** skipGenerated: a loop with a depth counter, which reads exactly one field of the
      grammar, and so succeeds only on balanced group tags. */
  method SkipGenerated(data: Data) returns (r: Result<nat>)
    ensures r == Field(data, 0)
  {
    hide ReadToken, Field, Group;
    var i := 0;
    var depth := 0;
    while i < |data|
      invariant 0 <= i <= MAX_INT && 0 <= depth
      invariant Field(data, 0) == Remaining(data, i, depth)
      decreases |data| - i
    {
      TokenStep(data, i, depth);
      var token := NextToken(data, i);
      match token {
        case Bad(e) =>
          return Err(e);
        case Scalar(next) =>
          i := next;
        case Open(next) =>
          i, depth := next, depth + 1;
        case Close(next) =>
          if depth == 0 {
            return Err(UnexpectedEndOfGroup);
          }
          i, depth := next, depth - 1;
      }
      if depth == 0 {
        return Ok(i);
      }
    }
    NothingLeft(data, i, depth);
    return Err(UnexpectedEof);
  }
}
