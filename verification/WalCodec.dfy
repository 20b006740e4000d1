/** The binary form of logged commands.  Floating-point numbers are their bit patterns. */
module WalCodec {
  import opened Bytes
  import opened Numbers
  import opened Wrappers

  const MAGIC: nat := 0x314D564E
  const EVENT_DEL: Byte := 2

  datatype MetaValue = Str(text: Text) | Int64(i: int) | Double(bits: nat) | Bool(b: bool)

  /** Metadata in the order the encoder's hash map happens to yield it. */
  type Entries = seq<(Text, MetaValue)>

  datatype Body = Legacy(filter: Text) | Typed(entries: Entries)

  datatype Command =
    | EventCmd(kind: Byte, ctx: Text, id: Text, score: int, timestamp: Option<nat>)
    | VecSetCmd(id: Text, vector: seq<nat>, metadata: Option<Entries>)
    | VecDelCmd(id: Text)
    | MetaSetCmd(id: Text, body: Body)

  datatype WalOp = EventAdd | EventDel | VecSet | VecDel | MetaSet

  /** What a record decodes to. */
  datatype Decoded =
    | EventRecord(kind: Byte, ctx: Text, id: Text, score: int, timestamp: nat)
    | VecSetRecord(id: Text, vector: seq<nat>, metadata: Option<map<Text, MetaValue>>)
    | VecDelRecord(id: Text)
    | LegacyRecord(id: Text, filter: Text)
    | TypedRecord(id: Text, typed: map<Text, MetaValue>)

  // ---------- Encoding ----------

  /** Two's complement in `bits` bits, given the modulus. */
  function Wrap(i: int, modulus: nat): nat
    requires modulus > 0
  {
    i % modulus
  }

  function Unwrap(u: nat, modulus: nat): int { if 2 * u < modulus then u else u - modulus }

  function EncodeText(s: Text): Text { LE(|s|, 4) + s }

  function EncodeValue(v: MetaValue): Text {
    match v
    case Str(text) => [0] + EncodeText(text)
    case Int64(i) => [1] + LE(Wrap(i, 0x1_0000_0000_0000_0000), 8)
    case Double(bits) => [2] + LE(bits, 8)
    case Bool(b) => [3, if b then 1 else 0]
  }

  function EncodeEntries(es: Entries): Text {
    if es == [] then [] else EncodeText(es[0].0) + (EncodeValue(es[0].1) + EncodeEntries(es[1..]))
  }

  function EncodeTyped(es: Entries): Text { LE(MAGIC, 4) + (LE(|es|, 4) + EncodeEntries(es)) }

  function EncodeFloats(v: seq<nat>): Text { if v == [] then [] else LE(v[0], 4) + EncodeFloats(v[1..]) }

  function Encode(c: Command): Text {
    match c
    case EventCmd(kind, ctx, id, score, timestamp) =>
      [kind] + (EncodeText(ctx) + (EncodeText(id) + (LE(Wrap(score, 0x1_0000_0000), 4)
        + LE(if timestamp.Some? then timestamp.value else 0, 8))))
    case VecSetCmd(id, vector, metadata) =>
      EncodeText(id) + (LE(|vector|, 4) + (EncodeFloats(vector) + if metadata.Some? then EncodeTyped(metadata.value) else []))
    case VecDelCmd(id) => EncodeText(id)
    case MetaSetCmd(id, Legacy(filter)) => EncodeText(id) + EncodeText(filter)
    case MetaSetCmd(id, Typed(entries)) => EncodeText(id) + EncodeTyped(entries)
  }

  function OpFor(c: Command): WalOp {
    match c
    case EventCmd(kind, _, _, _, _) => if kind == EVENT_DEL then EventDel else EventAdd
    case VecSetCmd(_, _, _) => VecSet
    case VecDelCmd(_) => VecDel
    case MetaSetCmd(_, _) => MetaSet
  }

  // ---------- Decoding ----------

  /** A value and the bytes after it. */
  datatype Parsed<T> = Parsed(value: T, rest: Text)

  function ReadLE(s: Text, n: nat): Option<Parsed<nat>> {
    if |s| < n then None else Some(Parsed(FromLE(s[..n]), s[n..]))
  }

  function ReadText(s: Text): Option<Parsed<Text>> {
    match ReadLE(s, 4)
    case None => None
    case Some(Parsed(n, r)) => if n > |r| then None else Some(Parsed(r[..n], r[n..]))
  }

  function ReadValue(s: Text): Option<Parsed<MetaValue>> {
    match ReadLE(s, 1)
    case None => None
    case Some(Parsed(tag, r)) =>
      if tag == 0 then
        match ReadText(r) case None => None case Some(Parsed(x, r')) => Some(Parsed(Str(x), r'))
      else if tag == 1 then
        match ReadLE(r, 8) case None => None case Some(Parsed(x, r')) => Some(Parsed(Int64(Unwrap(x, 0x1_0000_0000_0000_0000)), r'))
      else if tag == 2 then
        match ReadLE(r, 8) case None => None case Some(Parsed(x, r')) => Some(Parsed(Double(x), r'))
      else if tag == 3 then
        match ReadLE(r, 1) case None => None case Some(Parsed(x, r')) => if x > 1 then None else Some(Parsed(Bool(x == 1), r'))
      else None
  }

  /** Reads `count` entries into a map; of equal keys the first one stays. */
  function ReadEntries(s: Text, count: nat, m: map<Text, MetaValue>): Option<Parsed<map<Text, MetaValue>>>
    decreases count
  {
    if count == 0 then Some(Parsed(m, s))
    else
      match ReadText(s)
      case None => None
      case Some(Parsed(key, r)) =>
        match ReadValue(r)
        case None => None
        case Some(Parsed(v, r')) => ReadEntries(r', count - 1, if key in m then m else m[key := v])
  }

  /** After the magic number. */
  function ReadTyped(s: Text): Option<Parsed<map<Text, MetaValue>>> {
    match ReadLE(s, 4)
    case None => None
    case Some(Parsed(count, r)) => if count > |r| then None else ReadEntries(r, count, map[])
  }

  function ReadFloats(s: Text, n: nat): Option<Parsed<seq<nat>>>
    decreases n
  {
    if n == 0 then Some(Parsed([], s))
    else
      match ReadLE(s, 4)
      case None => None
      case Some(Parsed(x, r)) =>
        match ReadFloats(r, n - 1)
        case None => None
        case Some(Parsed(xs, r')) => Some(Parsed([x] + xs, r'))
  }

  function DecodeEvent(s: Text): Option<Decoded> {
    match ReadLE(s, 1)
    case None => None
    case Some(Parsed(kind, r0)) =>
      match ReadText(r0)
      case None => None
      case Some(Parsed(ctx, r1)) =>
        match ReadText(r1)
        case None => None
        case Some(Parsed(id, r2)) =>
          match ReadLE(r2, 4)
          case None => None
          case Some(Parsed(score, r3)) =>
            match ReadLE(r3, 8)
            case None => None
            case Some(Parsed(timestamp, _)) => Some(EventRecord(kind % 256, ctx, id, Unwrap(score, 0x1_0000_0000), timestamp))
  }

  /** What follows the vector: nothing, or metadata behind the magic number. */
  function DecodeExtension(s: Text): Option<Option<map<Text, MetaValue>>> {
    if s == [] then Some(None)
    else
      match ReadLE(s, 4)
      case None => None
      case Some(Parsed(magic, r)) =>
        if magic != MAGIC then None
        else match ReadTyped(r) case None => None case Some(Parsed(m, _)) => Some(Some(m))
  }

  function DecodeVecSet(s: Text): Option<Decoded> {
    match ReadText(s)
    case None => None
    case Some(Parsed(id, r0)) =>
      match ReadLE(r0, 4)
      case None => None
      case Some(Parsed(dim, r1)) =>
        if dim > INT_MAX || dim > |r1| / 4 then None
        else
          match ReadFloats(r1, dim)
          case None => None
          case Some(Parsed(v, r2)) =>
            match DecodeExtension(r2) case None => None case Some(m) => Some(VecSetRecord(id, v, m))
  }

  function DecodeMetaSet(s: Text): Option<Decoded> {
    match ReadText(s)
    case None => None
    case Some(Parsed(id, r)) =>
      if |r| >= 4 && FromLE(r[..4]) == MAGIC then
        match ReadTyped(r[4..]) case None => None case Some(Parsed(m, _)) => Some(TypedRecord(id, m))
      else
        match ReadText(r) case None => None case Some(Parsed(filter, _)) => Some(LegacyRecord(id, filter))
  }

  function Decode(op: WalOp, s: Text): Option<Decoded> {
    match op
    case EventAdd => DecodeEvent(s)
    case EventDel => DecodeEvent(s)
    case VecSet => DecodeVecSet(s)
    case VecDel => (match ReadText(s) case None => None case Some(Parsed(id, _)) => Some(VecDelRecord(id)))
    case MetaSet => DecodeMetaSet(s)
  }

  // ---------- What is persisted ----------

  function MapOf(es: Entries): map<Text, MetaValue>
    decreases |es|
  {
    if es == [] then map[] else MapOf(es[..|es| - 1])[es[|es| - 1].0 := es[|es| - 1].1]
  }

  /** A missing timestamp is persisted as 0, metadata as the map it stands for. */
  function Persisted(c: Command): Decoded {
    match c
    case EventCmd(kind, ctx, id, score, timestamp) =>
      EventRecord(kind, ctx, id, score, if timestamp.Some? then timestamp.value else 0)
    case VecSetCmd(id, vector, metadata) => VecSetRecord(id, vector, if metadata.Some? then Some(MapOf(metadata.value)) else None)
    case VecDelCmd(id) => VecDelRecord(id)
    case MetaSetCmd(id, Legacy(filter)) => LegacyRecord(id, filter)
    case MetaSetCmd(id, Typed(entries)) => TypedRecord(id, MapOf(entries))
  }

  predicate TextFits(s: Text) { |s| < 0x1_0000_0000 }

  predicate ValueFits(v: MetaValue) {
    match v
    case Str(text) => TextFits(text)
    case Int64(i) => -0x8000_0000_0000_0000 <= i < 0x8000_0000_0000_0000
    case Double(bits) => bits < 0x1_0000_0000_0000_0000
    case Bool(_) => true
  }

  /** Keys are distinct, as in any map. */
  predicate EntriesFit(es: Entries) {
    && |es| < 0x1_0000_0000
    && (forall i :: 0 <= i < |es| ==> TextFits(es[i].0) && ValueFits(es[i].1))
    && (forall i, j :: 0 <= i < j < |es| ==> es[i].0 != es[j].0)
  }

  predicate FloatsFit(v: seq<nat>) { forall i :: 0 <= i < |v| ==> v[i] < 0x1_0000_0000 }

  /** Every field fits the width it is stored in. */
  predicate CommandFits(c: Command) {
    match c
    case EventCmd(_, ctx, id, score, timestamp) =>
      TextFits(ctx) && TextFits(id) && -0x8000_0000 <= score < 0x8000_0000
      && (timestamp.Some? ==> timestamp.value < 0x1_0000_0000_0000_0000)
    case VecSetCmd(id, vector, metadata) =>
      TextFits(id) && |vector| <= INT_MAX && FloatsFit(vector) && (metadata.Some? ==> EntriesFit(metadata.value))
    case VecDelCmd(id) => TextFits(id)
    case MetaSetCmd(id, Legacy(filter)) => TextFits(id) && TextFits(filter)
    case MetaSetCmd(id, Typed(entries)) => TextFits(id) && EntriesFit(entries)
  }

  // ---------- Reading back, whole or cut short ----------

  lemma CutSplit(s: Text, whole: Text, rest: Text)
    requires s <= whole + rest
    ensures |s| < |whole| ==> s <= whole
    ensures |s| >= |whole| ==> s == whole + s[|whole|..] && s[|whole|..] <= rest
  {
    assert s == (whole + rest)[..|s|];
  }

  lemma ReadLECut(s: Text, v: nat, n: nat, rest: Text)
    requires v < Pow256(n) && s <= LE(v, n) + rest
    ensures |s| < n ==> ReadLE(s, n).None?
    ensures |s| >= n ==> ReadLE(s, n) == Some(Parsed(v, s[n..])) && s[n..] <= rest && s == LE(v, n) + s[n..]
  {
    CutSplit(s, LE(v, n), rest);
    LERoundTrip(v, n);
    if |s| >= n { assert s[..n] == LE(v, n); }
  }

  lemma ReadTextCut(s: Text, x: Text, rest: Text)
    requires TextFits(x) && s <= EncodeText(x) + rest
    ensures var n := 4 + |x|;
      && (|s| < n ==> ReadText(s).None?)
      && (|s| >= n ==> ReadText(s) == Some(Parsed(x, s[n..])) && s[n..] <= rest && s == EncodeText(x) + s[n..])
  {
    Powers();
    assert EncodeText(x) + rest == LE(|x|, 4) + (x + rest);
    ReadLECut(s, |x|, 4, x + rest);
    if |s| >= 4 {
      CutSplit(s[4..], x, rest);
      if |s| >= 4 + |x| { assert s[4..][..|x|] == x && s[4..][|x|..] == s[4 + |x|..]; }
    }
  }

  lemma WrapRoundTrip(i: int)
    ensures Wrap(i, 0x1_0000_0000) < 0x1_0000_0000 && Wrap(i, 0x1_0000_0000_0000_0000) < 0x1_0000_0000_0000_0000
    ensures -0x8000_0000 <= i < 0x8000_0000 ==> Unwrap(Wrap(i, 0x1_0000_0000), 0x1_0000_0000) == i
    ensures -0x8000_0000_0000_0000 <= i < 0x8000_0000_0000_0000 ==>
      Unwrap(Wrap(i, 0x1_0000_0000_0000_0000), 0x1_0000_0000_0000_0000) == i
  {
  }

  lemma TagCut(s: Text, tag: Byte, body: Text, rest: Text)
    requires s <= ([tag] + body) + rest
    ensures s == [] ==> ReadLE(s, 1).None?
    ensures s != [] ==> ReadLE(s, 1) == Some(Parsed(tag as nat, s[1..])) && s[1..] <= body + rest
    ensures |s| > |body| ==> s[1..][|body|..] == s[1 + |body|..]
  {
    hide ReadLE, LE;
    Powers();
    OneByte(tag);
    assert ([tag] + body) + rest == [tag] + (body + rest);
    ReadLECut(s, tag, 1, body + rest);
  }

  lemma TextValueCut(s: Text, text: Text, rest: Text)
    requires TextFits(text) && s <= EncodeValue(Str(text)) + rest
    ensures var n := 5 + |text|;
      && |EncodeValue(Str(text))| == n
      && (|s| < n ==> ReadValue(s).None?)
      && (|s| >= n ==> ReadValue(s) == Some(Parsed(Str(text), s[n..])) && s[n..] <= rest)
  {
    hide ReadLE, ReadText, EncodeText, LE;
    TextLength(text);
    TagCut(s, 0, EncodeText(text), rest);
    if s != [] { ReadTextCut(s[1..], text, rest); }
  }

  /** A value stored as a number of `width` bytes behind its tag. */
  lemma NumberValueCut(s: Text, v: MetaValue, tag: Byte, x: nat, width: nat, rest: Text)
    requires ValueFits(v) && x < Pow256(width) && EncodeValue(v) == [tag] + LE(x, width) && s <= EncodeValue(v) + rest
    requires match v
      case Str(_) => false
      case Int64(i) => tag == 1 && width == 8 && x == Wrap(i, 0x1_0000_0000_0000_0000)
      case Double(bits) => tag == 2 && width == 8 && x == bits
      case Bool(b) => tag == 3 && width == 1 && x == if b then 1 else 0
    ensures var n := 1 + width;
      && (|s| < n ==> ReadValue(s).None?)
      && (|s| >= n ==> ReadValue(s) == Some(Parsed(v, s[n..])) && s[n..] <= rest)
  {
    hide ReadLE, ReadText, EncodeValue, LE, Wrap, Unwrap, Pow256;
    TagCut(s, tag, LE(x, width), rest);
    if s != [] { ReadLECut(s[1..], x, width, rest); }
    if v.Int64? { WrapRoundTrip(v.i); }
  }

  lemma ReadValueCut(s: Text, v: MetaValue, rest: Text)
    requires ValueFits(v) && s <= EncodeValue(v) + rest
    ensures var n := |EncodeValue(v)|;
      && (|s| < n ==> ReadValue(s).None?)
      && (|s| >= n ==> ReadValue(s) == Some(Parsed(v, s[n..])) && s[n..] <= rest)
  {
    hide ReadValue, LE, Wrap;
    Powers();
    match v {
      case Str(text) => TextValueCut(s, text, rest);
      case Int64(i) => WrapRoundTrip(i); NumberValueCut(s, v, 1, Wrap(i, 0x1_0000_0000_0000_0000), 8, rest);
      case Double(bits) => NumberValueCut(s, v, 2, bits, 8, rest);
      case Bool(b) =>
        var bit: nat := if b then 1 else 0;
        OneByte(bit);
        assert EncodeValue(v) == [3] + LE(bit, 1);
        NumberValueCut(s, v, 3, bit, 1, rest);
    }
  }

  lemma {:induction false} MapOfMore(es: Entries, i: nat)
    requires i < |es| && EntriesFit(es)
    ensures MapOf(es[..i + 1]) == MapOf(es[..i])[es[i].0 := es[i].1] && es[i].0 !in MapOf(es[..i])
    ensures forall k :: k in MapOf(es[..i]) ==> exists a :: 0 <= a < i && es[a].0 == k
  {
    assert es[..i + 1][..i] == es[..i];
    if i > 0 {
      MapOfMore(es, i - 1);
      assert es[..i][..i - 1] == es[..i - 1];
    }
  }

  lemma NextEntry(es: Entries, i: nat)
    requires i < |es| && EntriesFit(es)
    ensures TextFits(es[i].0) && ValueFits(es[i].1) && es[i].0 !in MapOf(es[..i])
    ensures MapOf(es[..i + 1]) == MapOf(es[..i])[es[i].0 := es[i].1]
  {
    hide MapOf;
    MapOfMore(es, i);
  }

  lemma ReadOneEntry(s: Text, key: Text, v: MetaValue, rest: Text, count: nat, m: map<Text, MetaValue>)
    requires TextFits(key) && ValueFits(v) && count > 0 && key !in m
    requires s <= EncodeText(key) + (EncodeValue(v) + rest)
    ensures var n := |EncodeText(key)| + |EncodeValue(v)|;
      && (|s| < n ==> ReadEntries(s, count, m).None?)
      && (|s| >= n ==> s[n..] <= rest && ReadEntries(s, count, m) == ReadEntries(s[n..], count - 1, m[key := v]))
  {
    hide ReadText, ReadValue, EncodeValue, EncodeText, ValueFits;
    TextLength(key);
    ReadTextCut(s, key, EncodeValue(v) + rest);
    var n := |EncodeText(key)|;
    if |s| >= n {
      ReadValueCut(s[n..], v, rest);
      var n' := |EncodeValue(v)|;
      if |s| >= n + n' { assert s[n..][n'..] == s[n + n'..]; }
    }
  }

  /** Reading the remaining entries, from the i-th on, of a map whose first i are read. */
  lemma {:induction false} ReadEntriesCut(s: Text, es: Entries, i: nat, rest: Text)
    requires EntriesFit(es) && i <= |es| && s <= EncodeEntries(es[i..]) + rest
    ensures EntriesRead(s, es, i, rest)
    decreases |es| - i
  {
    hide EncodeValue, EncodeText, ValueFits, TextFits, EntriesFit, MapOf, EncodeEntries, ReadEntries, EntriesRead;
    if i == |es| {
      NoMoreEntries(s, es, rest);
    } else {
      EntriesStep(es, i, rest);
      NextEntry(es, i);
      var (key, v) := es[i];
      var more := EncodeEntries(es[i + 1..]) + rest;
      ReadOneEntry(s, key, v, more, |es| - i, MapOf(es[..i]));
      var n := |EncodeText(key)| + |EncodeValue(v)|;
      if |s| >= n { ReadEntriesCut(s[n..], es, i + 1, rest); }
      EntriesReadFrom(s, es, i, rest, n);
    }
  }

  /** What reading the entries from the i-th on comes to: nothing if the bytes are cut short, else the whole map. */
  ghost predicate EntriesRead(s: Text, es: Entries, i: nat, rest: Text)
    requires i <= |es|
  {
    var n, result := |EncodeEntries(es[i..])|, ReadEntries(s, |es| - i, MapOf(es[..i]));
    && (|s| < n ==> result.None?)
    && (|s| >= n ==> result == Some(Parsed(MapOf(es), s[n..])) && s[n..] <= rest)
  }

  lemma NoMoreEntries(s: Text, es: Entries, rest: Text)
    requires s <= EncodeEntries(es[|es|..]) + rest
    ensures EntriesRead(s, es, |es|, rest)
  {
    assert es[..|es|] == es && es[|es|..] == [];
  }

  lemma EntriesReadFrom(s: Text, es: Entries, i: nat, rest: Text, n: nat)
    requires i < |es| && |EncodeEntries(es[i..])| == n + |EncodeEntries(es[i + 1..])|
    requires |s| < n ==> ReadEntries(s, |es| - i, MapOf(es[..i])).None?
    requires |s| >= n ==>
      && ReadEntries(s, |es| - i, MapOf(es[..i])) == ReadEntries(s[n..], |es| - i - 1, MapOf(es[..i + 1]))
      && EntriesRead(s[n..], es, i + 1, rest)
    ensures EntriesRead(s, es, i, rest)
  {
    hide EncodeEntries, ReadEntries, MapOf;
    var m := |EncodeEntries(es[i + 1..])|;
    if |s| >= n + m { DropTwice(s, n, m); }
  }

  lemma DropTwice(s: Text, m: nat, n: nat)
    requires m + n <= |s|
    ensures s[m..][n..] == s[m + n..]
  {
  }

  lemma EntriesStep(es: Entries, i: nat, rest: Text)
    requires i < |es|
    ensures |EncodeEntries(es[i..])| == |EncodeText(es[i].0)| + |EncodeValue(es[i].1)| + |EncodeEntries(es[i + 1..])|
    ensures EncodeEntries(es[i..]) + rest == EncodeText(es[i].0) + (EncodeValue(es[i].1) + (EncodeEntries(es[i + 1..]) + rest))
  {
    hide EncodeText, EncodeValue;
    assert es[i..][1..] == es[i + 1..];
    Reassociate(EncodeText(es[i].0), EncodeValue(es[i].1), EncodeEntries(es[i + 1..]), rest);
  }

  lemma Reassociate(a: Text, b: Text, c: Text, d: Text)
    ensures (a + (b + c)) + d == a + (b + (c + d))
  {
  }

  lemma TextLength(x: Text)
    ensures |EncodeText(x)| == 4 + |x|
  {
  }

  lemma {:induction false} ReadEntriesLength(es: Entries, i: nat)
    requires i <= |es|
    ensures |EncodeEntries(es[i..])| >= |es| - i
    decreases |es| - i
  {
    if i < |es| {
      hide EncodeText, EncodeValue;
      assert es[i..][1..] == es[i + 1..];
      TextLength(es[i..][0].0);
      ReadEntriesLength(es, i + 1);
    }
  }

  lemma ReadTypedCut(s: Text, es: Entries)
    requires EntriesFit(es) && s <= LE(|es|, 4) + EncodeEntries(es)
    ensures var n := 4 + |EncodeEntries(es)|;
      && (|s| < n ==> ReadTyped(s).None?)
      && (|s| == n ==> ReadTyped(s).Some? && ReadTyped(s).value.value == MapOf(es))
  {
    hide EncodeEntries, ReadEntries, LE;
    Powers();
    ReadLECut(s, |es|, 4, EncodeEntries(es));
    assert es[0..] == es && es[..0] == [] && MapOf([]) == map[];
    if |s| >= 4 {
      assert EncodeEntries(es) + [] == EncodeEntries(es);
      ReadEntriesCut(s[4..], es, 0, []);
      ReadEntriesLength(es, 0);
    }
  }

  lemma {:induction false} FloatsLength(v: seq<nat>)
    ensures |EncodeFloats(v)| == 4 * |v|
  {
    if v != [] { FloatsLength(v[1..]); }
  }

  lemma {:induction false} ReadFloatsCut(s: Text, v: seq<nat>, rest: Text)
    requires FloatsFit(v) && |s| >= 4 * |v| && s <= EncodeFloats(v) + rest
    ensures ReadFloats(s, |v|) == Some(Parsed(v, s[4 * |v|..])) && s[4 * |v|..] <= rest
    decreases |v|
  {
    if v != [] {
      hide EncodeFloats, LE, ReadLE;
      Powers();
      var tail := EncodeFloats(v[1..]);
      FloatsStep(v, rest);
      ReadLECut(s, v[0], 4, tail + rest);
      ReadFloatsCut(s[4..], v[1..], rest);
      DropTwice(s, 4, 4 * |v[1..]|);
      assert [v[0]] + v[1..] == v;
    }
  }

  lemma FloatsStep(v: seq<nat>, rest: Text)
    requires v != []
    ensures EncodeFloats(v) + rest == LE(v[0], 4) + (EncodeFloats(v[1..]) + rest)
  {
  }

  // ---------- The codec ----------

  /** The longest proper prefix of a payload that could stand for itself: a vector without its metadata. */
  function Bare(c: Command): Option<Text> {
    if c.VecSetCmd? && c.metadata.Some? then Some(Encode(c.(metadata := None))) else None
  }

  lemma EventCut(s: Text, c: Command)
    requires c.EventCmd? && CommandFits(c) && s <= Encode(c)
    ensures DecodeEvent(s) == if s == Encode(c) then Some(Persisted(c)) else None
  {
    hide EncodeText, ReadText, ReadLE, LE;
    Powers();
    var t: nat := if c.timestamp.Some? then c.timestamp.value else 0;
    var score := Wrap(c.score, 0x1_0000_0000);
    WrapRoundTrip(c.score);
    OneByte(c.kind);
    TextLength(c.ctx);
    TextLength(c.id);
    var e4 := LE(t, 8);
    var e3 := LE(score, 4) + e4;
    var e2 := EncodeText(c.id) + e3;
    var e1 := EncodeText(c.ctx) + e2;
    assert Encode(c) == [c.kind] + e1;
    ReadLECut(s, c.kind, 1, e1);
    if |s| >= 1 {
      ReadTextCut(s[1..], c.ctx, e2);
      var n1 := 4 + |c.ctx|;
      if |s[1..]| >= n1 {
        var s2 := s[1..][n1..];
        ReadTextCut(s2, c.id, e3);
        var n2 := 4 + |c.id|;
        if |s2| >= n2 {
          var s3 := s2[n2..];
          ReadLECut(s3, score, 4, e4);
          if |s3| >= 4 {
            assert e4 + [] == e4;
            ReadLECut(s3[4..], t, 8, []);
          }
        }
      }
    }
    PrefixIsWhole(s, Encode(c));
  }

  lemma OneByte(b: Byte)
    ensures LE(b, 1) == [b]
  {
    assert LE(b / 256, 0) == [];
  }

  lemma PrefixIsWhole(s: Text, t: Text)
    requires s <= t
    ensures |s| >= |t| <==> s == t
  {
  }

  lemma ExtensionCut(s: Text, es: Entries)
    requires EntriesFit(es) && s <= EncodeTyped(es)
    ensures DecodeExtension(s) == if s == EncodeTyped(es) then Some(Some(MapOf(es))) else if s == [] then Some(None) else None
  {
    hide ReadTyped, LE, EncodeEntries;
    Powers();
    ReadLECut(s, MAGIC, 4, LE(|es|, 4) + EncodeEntries(es));
    if |s| >= 4 { ReadTypedCut(s[4..], es); }
    PrefixIsWhole(s, EncodeTyped(es));
  }

  lemma VecSetCut(s: Text, c: Command)
    requires c.VecSetCmd? && CommandFits(c) && s <= Encode(c)
    ensures s == Encode(c) ==> DecodeVecSet(s) == Some(Persisted(c))
    ensures s != Encode(c) ==> (DecodeVecSet(s).Some? <==> Bare(c) == Some(s))
  {
    hide EncodeText, ReadText, ReadLE, LE, EncodeTyped, EncodeFloats, ReadFloats, DecodeExtension;
    Powers();
    TextLength(c.id);
    var e2 := if c.metadata.Some? then EncodeTyped(c.metadata.value) else [];
    var e1 := EncodeFloats(c.vector) + e2;
    FloatsLength(c.vector);
    ReadTextCut(s, c.id, LE(|c.vector|, 4) + e1);
    var n := 4 + |c.id|;
    if |s| >= n {
      var s1 := s[n..];
      ReadLECut(s1, |c.vector|, 4, e1);
      if |s1| >= 4 {
        var s2 := s1[4..];
        if |s2| >= 4 * |c.vector| {
          ReadFloatsCut(s2, c.vector, e2);
          var s3 := s2[4 * |c.vector|..];
          ExtensionIs(s3, c);
          BareIs(c, s, e2, s3);
        }
      }
    }
    PrefixIsWhole(s, Encode(c));
  }

  lemma ExtensionIs(s: Text, c: Command)
    requires c.VecSetCmd? && CommandFits(c) && s <= (if c.metadata.Some? then EncodeTyped(c.metadata.value) else [])
    ensures c.metadata.None? ==> s == [] && DecodeExtension(s) == Some(None)
    ensures c.metadata.Some? ==>
      var whole := EncodeTyped(c.metadata.value);
      DecodeExtension(s) == (if s == whole then Some(Some(MapOf(c.metadata.value))) else if s == [] then Some(None) else None)
  {
    if c.metadata.Some? { ExtensionCut(s, c.metadata.value); }
  }

  lemma BareIs(c: Command, s: Text, e2: Text, s3: Text)
    requires c.VecSetCmd? && s <= Encode(c) && e2 == (if c.metadata.Some? then EncodeTyped(c.metadata.value) else [])
    requires s3 <= e2 && |s| + |e2| == |Encode(c)| + |s3|
    ensures s == Encode(c) <==> s3 == e2
    ensures Bare(c) == Some(s) <==> c.metadata.Some? && s3 == []
  {
    hide EncodeText, LE, EncodeTyped, EncodeFloats;
    PrefixIsWhole(s, Encode(c));
    PrefixIsWhole(s3, e2);
    if c.metadata.Some? {
      var bare := Encode(c.(metadata := None));
      assert bare == EncodeText(c.id) + (LE(|c.vector|, 4) + EncodeFloats(c.vector));
      assert Encode(c) == bare + e2;
      assert s == Encode(c)[..|s|];
      if s3 == [] { assert s == bare; }
    }
  }

  lemma MetaSetCut(s: Text, c: Command)
    requires c.MetaSetCmd? && CommandFits(c) && s <= Encode(c)
    ensures c.body.Typed? ==> DecodeMetaSet(s) == (if s == Encode(c) then Some(Persisted(c)) else None)
    ensures c.body.Legacy? && |c.body.filter| != MAGIC ==> DecodeMetaSet(s) == (if s == Encode(c) then Some(Persisted(c)) else None)
    ensures c.body.Legacy? && |c.body.filter| == MAGIC && s == Encode(c) ==> DecodeMetaSet(s) != Some(Persisted(c))
  {
    hide ReadText, LE, FromLE, ReadTyped, EncodeEntries;
    Powers();
    TextLength(c.id);
    PrefixIsWhole(s, Encode(c));
    var first := if c.body.Typed? then MAGIC else |c.body.filter|;
    var more := if c.body.Typed? then LE(|c.body.entries|, 4) + EncodeEntries(c.body.entries) else c.body.filter;
    assert Encode(c) == EncodeText(c.id) + (LE(first, 4) + more);
    ReadTextCut(s, c.id, LE(first, 4) + more);
    var n := 4 + |c.id|;
    if |s| >= n {
      var r := s[n..];
      ReadLECut(r, first, 4, more);
      if c.body.Legacy? {
        assert EncodeText(c.body.filter) + [] == LE(first, 4) + more;
        ReadTextCut(r, c.body.filter, []);
      } else if |r| >= 4 {
        ReadTypedCut(r[4..], c.body.entries);
      } else {
        ShortText(r);
      }
    }
  }

  lemma ShortText(s: Text)
    requires |s| < 4
    ensures ReadText(s).None?
  {
  }

  /**
   The codec round-trips exactly: a command whose fields fit their widths decodes to what is persisted of it,
   unless it is a legacy filter whose length reads as the magic number.
   */
  lemma CodecRoundTrips(c: Command)
    requires CommandFits(c)
    ensures Decode(OpFor(c), Encode(c)) == Some(Persisted(c))
      <==> !(c.MetaSetCmd? && c.body.Legacy? && |c.body.filter| == MAGIC)
  {
    hide DecodeEvent, DecodeVecSet, DecodeMetaSet, ReadText;
    match c {
      case EventCmd(_, _, _, _, _) => EventCut(Encode(c), c);
      case VecSetCmd(_, _, _) => VecSetCut(Encode(c), c);
      case VecDelCmd(id) => assert EncodeText(id) + [] == EncodeText(id); ReadTextCut(Encode(c), id, []);
      case MetaSetCmd(_, _) => MetaSetCut(Encode(c), c);
    }
  }

  /**
   A payload cut short is rejected, with one exception: a vector whose metadata is missing altogether.
   */
  lemma CutPayloadIsRejected(c: Command, s: Text)
    requires CommandFits(c) && s <= Encode(c) && s != Encode(c)
    requires !(c.MetaSetCmd? && c.body.Legacy? && |c.body.filter| == MAGIC)
    ensures Decode(OpFor(c), s).Some? <==> Bare(c) == Some(s)
  {
    hide DecodeEvent, DecodeVecSet, DecodeMetaSet, ReadText;
    PrefixIsWhole(s, Encode(c));
    match c {
      case EventCmd(_, _, _, _, _) => EventCut(s, c);
      case VecSetCmd(_, _, _) => VecSetCut(s, c);
      case VecDelCmd(id) => TextLength(id); assert EncodeText(id) + [] == EncodeText(id); ReadTextCut(s, id, []);
      case MetaSetCmd(_, _) => MetaSetCut(s, c);
    }
  }

  /** Metadata decode to the same map in whatever order a hash map yields them. */
  lemma OrderOfEntriesIsIrrelevant(id: Text, es: Entries, es': Entries)
    requires EntriesFit(es) && EntriesFit(es') && TextFits(id) && multiset(es) == multiset(es')
    ensures Decode(MetaSet, Encode(MetaSetCmd(id, Typed(es)))) == Decode(MetaSet, Encode(MetaSetCmd(id, Typed(es'))))
  {
    CodecRoundTrips(MetaSetCmd(id, Typed(es)));
    CodecRoundTrips(MetaSetCmd(id, Typed(es')));
    hide MapOf, EncodeTyped, EncodeText, DecodeMetaSet;
    SameMap(es, es');
  }

  lemma {:induction false} MapOfHolds(es: Entries)
    requires forall a, b :: 0 <= a < b < |es| ==> es[a].0 != es[b].0
    ensures forall a :: 0 <= a < |es| ==> es[a].0 in MapOf(es) && MapOf(es)[es[a].0] == es[a].1
    ensures forall k :: k in MapOf(es) ==> exists a :: 0 <= a < |es| && es[a].0 == k
    decreases |es|
  {
    if es != [] {
      var n := |es| - 1;
      MapOfHolds(es[..n]);
      assert forall a :: 0 <= a < n ==> es[a] == es[..n][a];
    }
  }

  lemma SameMap(es: Entries, es': Entries)
    requires EntriesFit(es) && EntriesFit(es') && multiset(es) == multiset(es')
    ensures MapOf(es) == MapOf(es')
  {
    hide MapOf, ValueFits;
    MapOfHolds(es);
    MapOfHolds(es');
    var m, m' := MapOf(es), MapOf(es');
    forall k | k in m ensures k in m' && m[k] == m'[k] {
      var a :| 0 <= a < |es| && es[a].0 == k;
      assert es[a] in multiset(es');
      var b :| 0 <= b < |es'| && es'[b] == es[a];
    }
    forall k | k in m' ensures k in m {
      var b :| 0 <= b < |es'| && es'[b].0 == k;
      assert es'[b] in multiset(es);
      var a :| 0 <= a < |es| && es[a] == es'[b];
    }
  }

  // ---------- The reader ----------

  /** A cursor over a payload. */
  class Reader {
    const data: Text
    var pos: nat

    ghost predicate Valid()
      reads this
    {
      pos <= |data|
    }

    constructor (data: Text)
      ensures Valid() && this.data == data && pos == 0
    {
      this.data, pos := data, 0;
    }

    /** Little-endian number; the cursor moves only if there are enough bytes. */
    method ReadNumber(bytes: nat) returns (r: Option<nat>)
      requires Valid()
      modifies this
      ensures Valid()
      ensures match ReadLE(old(data[pos..]), bytes)
        case None => r.None? && pos == old(pos)
        case Some(p) => r == Some(p.value) && data[pos..] == p.rest
    {
      if bytes > |data| - pos { return None; }
      hide FromLE, Pow256;
      var value: nat, weight: nat := 0, 1;
      ghost var s := data[pos..];
      FirstDigits(s);
      for i := 0 to bytes
        invariant pos == old(pos) && value == FromLE(s[..i]) && weight == Pow256(i)
      {
        NextDigit(s, i);
        value := value + weight * data[pos + i];
        weight := 256 * weight;
      }
      assert data[pos..][bytes..] == data[pos + bytes..];
      pos := pos + bytes;
      r := Some(value);
    }

    /** Length-prefixed text. */
    method ReadString() returns (r: Option<Text>)
      requires Valid()
      modifies this
      ensures Valid()
      ensures match ReadText(old(data[pos..]))
        case None => r.None?
        case Some(p) => r == Some(p.value) && data[pos..] == p.rest
    {
      hide FromLE;
      var length := ReadNumber(4);
      if length.None? { return None; }
      if length.value > |data| - pos { return None; }
      var rest := data[pos..];
      assert rest[length.value..] == data[pos + length.value..];
      r := Some(rest[..length.value]);
      pos := pos + length.value;
    }
  }

  lemma FirstDigits(s: Text)
    ensures FromLE(s[..0]) == 0 && Pow256(0) == 1
  {
  }

  lemma {:induction false} NextDigit(s: Text, i: nat)
    requires i < |s|
    ensures FromLE(s[..i + 1]) == FromLE(s[..i]) + Pow256(i) * s[i] && Pow256(i + 1) == 256 * Pow256(i)
  {
    assert s[..i + 1][1..] == s[1..][..i];
    if i > 0 {
      assert s[..i][1..] == s[1..][..i - 1];
      NextDigit(s[1..], i - 1);
      assert Pow256(i) * s[i] == 256 * (Pow256(i - 1) * s[i]);
    }
  }

  /** The entries of a typed metadata map, into a map. */
  method DecodeTypedMetadata(reader: Reader) returns (r: Option<map<Text, MetaValue>>)
    requires reader.Valid()
    modifies reader
    ensures reader.Valid()
    ensures match ReadTyped(old(reader.data[reader.pos..]))
      case None => r.None?
      case Some(p) => r == Some(p.value) && reader.data[reader.pos..] == p.rest
  {
    hide ReadLE, ReadText, ReadValue;
    var count := reader.ReadNumber(4);
    if count.None? { return None; }
    if count.value > |reader.data| - reader.pos { return None; }
    var metadata: map<Text, MetaValue> := map[];
    var i := 0;
    while i < count.value
      invariant 0 <= i <= count.value && reader.Valid()
      invariant ReadTyped(old(reader.data[reader.pos..])) == ReadEntries(reader.data[reader.pos..], count.value - i, metadata)
    {
      var key := reader.ReadString();
      if key.None? { return None; }
      var value := DecodeMetadataValue(reader);
      if value.None? { return None; }
      if key.value !in metadata { metadata := metadata[key.value := value.value]; }
      i := i + 1;
    }
    r := Some(metadata);
  }

  method DecodeMetadataValue(reader: Reader) returns (r: Option<MetaValue>)
    requires reader.Valid()
    modifies reader
    ensures reader.Valid()
    ensures match ReadValue(old(reader.data[reader.pos..]))
      case None => r.None?
      case Some(p) => r == Some(p.value) && reader.data[reader.pos..] == p.rest
  {
    hide ReadLE, ReadText;
    var tag := reader.ReadNumber(1);
    if tag.None? { return None; }
    if tag.value == 0 {
      var text := reader.ReadString();
      if text.None? { return None; }
      return Some(Str(text.value));
    }
    if tag.value > 3 { return None; }
    var raw := reader.ReadNumber(if tag.value == 3 then 1 else 8);
    if raw.None? { return None; }
    if tag.value == 1 { return Some(Int64(Unwrap(raw.value, 0x1_0000_0000_0000_0000))); }
    if tag.value == 2 { return Some(Double(raw.value)); }
    if raw.value > 1 { return None; }
    r := Some(Bool(raw.value == 1));
  }
}
