/**
  Types and their encodings: the grammar of well-formed types, how each is printed,
  and the size and alignment that the walkers accumulate, defined on the types.
 */
module EncodedTypes {
  import opened Basics
  import opened Arithmetic

  datatype Kind = StructKind | UnionKind

  datatype Type =
    | Primitive(code: char)
    | Void
    /** A function or something undescribed, behind a pointer only. */
    | Unknown
    | Complex(code: char)
    | Object
    | ObjectOf(className: string)
    | Block
    | BlockOf(signature: string)
    | Qualified(qualifier: char, target: Type)
    | Pointer(target: Type)
    | Array(count: nat, target: Type)
    | Aggregate(kind: Kind, name: string, fields: Fields)
    | Opaque(kind: Kind, name: string)

  datatype Fields = End | Field(tag: Option<string>, first: Type, rest: Fields)

  const QUALIFIERS := "rnNoORVA"
  const NUMBERS := "DdfcislqCSILQ"
  const OTHERS := "B#:*"

  predicate IsQualifier(c: char) { c in QUALIFIERS }
  predicate IsNumber(c: char) { c in NUMBERS }
  predicate IsPrimitive(c: char) { c in NUMBERS || c in OTHERS }
  predicate IsDigit(c: char) { '0' <= c <= '9' }

  function Opening(k: Kind): char { if k.StructKind? then '{' else '(' }
  function Closing(k: Kind): char { if k.StructKind? then '}' else ')' }

  // ---------------------------------------------------------------------------
  // Printing
  // ---------------------------------------------------------------------------

  function Digit(d: nat): (c: char)
    requires d < 10
    ensures IsDigit(c)
  {
    '0' + d as char
  }

  function Decimal(n: nat): (r: string)
    ensures r != [] && forall i :: 0 <= i < |r| ==> IsDigit(r[i])
  {
    if n < 10 then [Digit(n)] else Decimal(n / 10) + [Digit(n % 10)]
  }

  function DigitValue(c: char): (d: nat)
    requires IsDigit(c)
    ensures d < 10
  {
    c as nat - '0' as nat
  }

  /** The number that a string of digits denotes. */
  function Value(s: string): nat
    requires forall i :: 0 <= i < |s| ==> IsDigit(s[i])
  {
    if s == [] then 0 else Value(s[..|s| - 1]) * 10 + DigitValue(s[|s| - 1])
  }

  lemma {:induction false} ValueOfDecimal(n: nat)
    ensures Value(Decimal(n)) == n
  {
    if n >= 10 {
      ValueOfDecimal(n / 10);
      var d := Decimal(n);
      assert d[..|d| - 1] == Decimal(n / 10);
    }
  }

  function Print(t: Type): (r: string) {
    match t
    case Primitive(c) => [c]
    case Void => "v"
    case Unknown => "?"
    case Complex(c) => ['j', c]
    case Object => "@"
    case ObjectOf(n) => "@\"" + n + "\""
    case Block => "@?"
    case BlockOf(x) => "@?<" + x + ">"
    case Qualified(q, u) => [q] + Print(u)
    case Pointer(u) => "^" + Print(u)
    case Array(n, u) => "[" + (Decimal(n) + (Print(u) + "]"))
    case Aggregate(k, name, fs) => [Opening(k)] + (name + ("=" + (PrintFields(fs) + [Closing(k)])))
    case Opaque(k, name) => [Opening(k)] + (name + [Closing(k)])
  }

  function PrintLabel(l: Option<string>): string {
    if l.None? then "" else "\"" + (l.value + "\"")
  }

  function PrintFields(fs: Fields): string {
    match fs
    case End => ""
    case Field(l, t, rest) => PrintLabel(l) + (Print(t) + PrintFields(rest))
  }

  // ---------------------------------------------------------------------------
  // Well-formed types
  // ---------------------------------------------------------------------------

  /** The print ends in a bare @, which a following ? or " would extend. */
  predicate EndsInObject(t: Type) {
    match t
    case Object => true
    case Qualified(_, u) => EndsInObject(u)
    case Pointer(u) => EndsInObject(u)
    case _ => false
  }

  /** The print ends in a bare @?, which a following < would extend. */
  predicate EndsInBlock(t: Type) {
    match t
    case Block => true
    case Qualified(_, u) => EndsInBlock(u)
    case Pointer(u) => EndsInBlock(u)
    case _ => false
  }

  /** The character c may follow the print of t. */
  predicate MayFollow(t: Type, c: char) {
    (EndsInObject(t) ==> c != '?' && c != '"') && (EndsInBlock(t) ==> c != '<')
  }

  predicate WellFormed(t: Type, pointee: bool) {
    match t
    case Primitive(c) => IsPrimitive(c)
    case Void => true
    case Unknown => pointee
    case Complex(c) => IsNumber(c)
    case Object => true
    case ObjectOf(n) => '"' !in n
    case Block => true
    case BlockOf(x) => '>' !in x
    case Qualified(q, u) => IsQualifier(q) && WellFormed(u, pointee)
    case Pointer(u) => WellFormed(u, true)
    case Array(_, u) => WellFormed(u, false)
    case Aggregate(k, name, fs) => '=' !in name && Closing(k) !in name && WellFormedFields(fs)
    case Opaque(k, name) => '=' !in name && Closing(k) !in name
  }

  predicate WellFormedFields(fs: Fields) {
    match fs
    case End => true
    case Field(l, t, rest) =>
      && (l.Some? ==> '"' !in l.value) && WellFormed(t, false) && WellFormedFields(rest)
      && (rest.Field? && rest.tag.Some? ==> !EndsInObject(t))
  }

  /** The characters that begin a type. */
  predicate Begins(c: char) {
    IsPrimitive(c) || IsQualifier(c) || c in "vj@^[{("
  }

  lemma {:induction false} PrintBegins(t: Type, pointee: bool)
    requires WellFormed(t, pointee)
    ensures Print(t) != [] && (Begins(Print(t)[0]) || (pointee && Print(t)[0] == '?'))
    ensures !t.Qualified? ==> !IsQualifier(Print(t)[0])
  {
    if t.Qualified? {
      PrintBegins(t.target, pointee);
    }
  }

  // ---------------------------------------------------------------------------
  // Qualifiers
  // ---------------------------------------------------------------------------

  function Core(t: Type): Type {
    if t.Qualified? then Core(t.target) else t
  }

  function Qualifiers(t: Type): nat {
    if t.Qualified? then 1 + Qualifiers(t.target) else 0
  }

  // ---------------------------------------------------------------------------
  // Positions in a string
  // ---------------------------------------------------------------------------

  /** The character at i of a terminated string. */
  function At(s: string, i: nat): char {
    if i < |s| then s[i] else '\0'
  }

  ghost predicate Has(s: string, pos: nat, p: string) {
    pos + |p| <= |s| && forall i :: 0 <= i < |p| ==> s[pos + i] == p[i]
  }

  lemma HasBoth(s: string, pos: nat, a: string, b: string)
    requires Has(s, pos, a + b)
    ensures Has(s, pos, a) && Has(s, pos + |a|, b)
  {
    assert forall i :: 0 <= i < |a| ==> (a + b)[i] == a[i];
    assert forall i :: 0 <= i < |b| ==> (a + b)[|a| + i] == b[i];
    forall i | 0 <= i < |b|
      ensures s[pos + |a| + i] == b[i]
    {
      assert s[pos + (|a| + i)] == (a + b)[|a| + i];
    }
  }

  lemma HasFirst(s: string, pos: nat, p: string)
    requires Has(s, pos, p) && p != []
    ensures At(s, pos) == p[0] && pos < |s|
  {
    assert s[pos + 0] == p[0];
  }

  lemma HasAt(s: string, pos: nat, p: string, i: nat)
    requires Has(s, pos, p) && i < |p|
    ensures pos + i < |s| && At(s, pos + i) == p[i]
  {
  }

  lemma HasSlice(s: string, pos: nat, p: string)
    requires Has(s, pos, p)
    ensures s[pos..pos + |p|] == p
  {
  }

  /** A type's qualifiers and its core, in the string. */
  lemma {:induction false} CoreBegins(s: string, pos: nat, t: Type, pointee: bool)
    requires Has(s, pos, Print(t)) && WellFormed(t, pointee)
    ensures
      var n := Qualifiers(t);
      && Has(s, pos + n, Print(Core(t))) && n + |Print(Core(t))| == |Print(t)|
      && WellFormed(Core(t), pointee) && !Core(t).Qualified?
      && !IsQualifier(At(s, pos + n))
      && forall i :: pos <= i < pos + n ==> IsQualifier(At(s, i))
    ensures EndsInObject(t) == EndsInObject(Core(t)) && EndsInBlock(t) == EndsInBlock(Core(t))
    ensures Nodes(Core(t)) <= Nodes(t)
    decreases t
  {
    PrintBegins(t, pointee);
    HasFirst(s, pos, Print(t));
    if t.Qualified? {
      HasBoth(s, pos, [t.qualifier], Print(t.target));
      CoreBegins(s, pos + 1, t.target, pointee);
    }
  }

  // ---------------------------------------------------------------------------
  // Size and alignment, in bits
  // ---------------------------------------------------------------------------

  const SIZE_T := 0x1_0000_0000_0000_0000
  const INT_RANGE := 0x1_0000_0000
  const LONG_MAX := 0x7FFF_FFFF_FFFF_FFFF

  /** Arithmetic of size_t. */
  function Wrap(x: int): nat { x % SIZE_T }

  function RoundUp(v: nat, b: nat): nat {
    if b == 0 || v % b == 0 then v else Wrap(v + (b - v % b))
  }

  function Max(a: nat, b: nat): nat { if a > b then a else b }

  /** Bytes of a primitive type, which is also its alignment. */
  function Bytes(c: char): nat {
    if c == 'D' then 16
    else if c in "dlqLQ#:*" then 8
    else if c in "fiI" then 4
    else if c in "sS" then 2
    else 1
  }

  const WORD := 64

  /** strtol and a conversion to int. */
  function ElementCount(n: nat): int {
    var low := (if n > LONG_MAX then LONG_MAX else n) % INT_RANGE;
    if low < INT_RANGE / 2 then low else low - INT_RANGE
  }

  /** The three callbacks handed to the parsers of arrays, structures and unions. */
  datatype Walker = SizeWalker | AlignWalker | UnionWalker

  function Nodes(t: Type): nat {
    match t
    case Qualified(_, u) => 1 + Nodes(u)
    case Pointer(u) => 1 + Nodes(u)
    case Array(_, u) => 1 + Nodes(u)
    case Aggregate(_, _, fs) => 1 + NodesOf(fs)
    case _ => 1
  }

  function NodesOf(fs: Fields): nat {
    match fs
    case End => 0
    case Field(_, t, rest) => 1 + Nodes(t) + NodesOf(rest)
  }

  /** The alignment a type asks for. */
  function Natural(t: Type): nat {
    match t
    case Primitive(c) => 8 * Bytes(c)
    case Complex(c) => 8 * Bytes(c)
    case Void => 0
    case Unknown => 0
    case Object => WORD
    case ObjectOf(_) => WORD
    case Block => WORD
    case BlockOf(_) => WORD
    case Qualified(_, u) => Natural(u)
    case Pointer(_) => WORD
    case Array(_, u) => Natural(u)
    case Aggregate(_, _, fs) => NaturalOf(fs)
    case Opaque(_, _) => 0
  }

  function NaturalOf(fs: Fields): nat {
    match fs
    case End => 0
    case Field(_, t, rest) => Max(Natural(t), NaturalOf(rest))
  }

  /** The accumulator of a walker after a type. */
  function After(w: Walker, t: Type, acc: nat): nat
    decreases Nodes(t), if w.UnionWalker? then 1 else 0
  {
    match w
    case AlignWalker => Max(Natural(t), acc)
    case UnionWalker => Max(acc, After(SizeWalker, t, 0))
    case SizeWalker =>
      match t
      case Primitive(c) => Wrap(RoundUp(acc, 8 * Bytes(c)) + 8 * Bytes(c))
      case Complex(c) => Wrap(RoundUp(acc, 8 * Bytes(c)) + 16 * Bytes(c))
      case Void => acc
      case Unknown => acc
      case Object => Wrap(RoundUp(acc, WORD) + WORD)
      case ObjectOf(_) => Wrap(RoundUp(acc, WORD) + WORD)
      case Block => Wrap(RoundUp(acc, WORD) + WORD)
      case BlockOf(_) => Wrap(RoundUp(acc, WORD) + WORD)
      case Qualified(_, u) => After(SizeWalker, u, acc)
      case Pointer(_) => Wrap(acc + WORD)
      case Array(n, u) => Wrap(acc + After(SizeWalker, u, 0) * ElementCount(n))
      case Aggregate(StructKind, _, fs) => RoundUp(AfterFields(SizeWalker, fs, acc), Natural(t) / 8 * 8)
      case Aggregate(UnionKind, _, fs) => Wrap(acc + AfterFields(UnionWalker, fs, 0))
      case Opaque(StructKind, _) => acc
      case Opaque(UnionKind, _) => Wrap(acc)
  }

  function AfterFields(w: Walker, fs: Fields, acc: nat): nat
    decreases NodesOf(fs), 0
  {
    match fs
    case End => acc
    case Field(_, t, rest) => AfterFields(w, rest, After(w, t, acc))
  }

  lemma {:induction false} AfterCore(w: Walker, t: Type, acc: nat)
    ensures After(w, t, acc) == After(w, Core(t), acc)
    decreases t, w.UnionWalker?
  {
    if t.Qualified? {
      AfterCore(w, t.target, acc);
    }
  }

  /** Walking the fields one by one accumulates their greatest alignment. */
  lemma {:induction false} AlignOfFields(fs: Fields, acc: nat)
    ensures AfterFields(AlignWalker, fs, acc) == Max(NaturalOf(fs), acc)
  {
    if fs.Field? {
      AlignOfFields(fs.rest, After(AlignWalker, fs.first, acc));
    }
  }

  // ---------------------------------------------------------------------------
  // What the sizes mean
  // ---------------------------------------------------------------------------

  /** The sizes and alignments, in bits, of an LP64 ABI. */
  lemma PrimitiveSizes(c: char)
    ensures c == 'D' ==> After(SizeWalker, Primitive(c), 0) == Natural(Primitive(c)) == 128
    ensures c in "dlLqQ*#:" ==> After(SizeWalker, Primitive(c), 0) == Natural(Primitive(c)) == 64
    ensures c in "fiI" ==> After(SizeWalker, Primitive(c), 0) == Natural(Primitive(c)) == 32
    ensures c in "sS" ==> After(SizeWalker, Primitive(c), 0) == Natural(Primitive(c)) == 16
    ensures c in "cCB" ==> After(SizeWalker, Primitive(c), 0) == Natural(Primitive(c)) == 8
    ensures IsNumber(c) ==> After(SizeWalker, Complex(c), 0) == 2 * Natural(Complex(c)) == 2 * Natural(Primitive(c))
  {
  }

  /** A printed count below 2^31 is taken as it is; a greater one is reduced to an int, after it was
      cut down to the greatest long. */
  lemma CountAsInt(n: nat)
    ensures n <= 0x7fff_ffff ==> ElementCount(n) == n
    ensures -0x8000_0000 <= ElementCount(n) <= 0x7fff_ffff
    ensures n <= LONG_MAX ==> (n - ElementCount(n)) % INT_RANGE == 0
    ensures n > LONG_MAX ==> ElementCount(n) == -1
  {
    var k := n / INT_RANGE;
    assert n == k * INT_RANGE + n % INT_RANGE;
  }

  lemma ArraySize(n: nat, t: Type)
    requires n <= 0x7fff_ffff && n * After(SizeWalker, t, 0) < SIZE_T
    ensures After(SizeWalker, Array(n, t), 0) == n * After(SizeWalker, t, 0)
  {
    hide After, Wrap, ElementCount;
    CountAsInt(n);
    AfterArray(n, t);
    WrapsSmall(n * After(SizeWalker, t, 0));
  }

  lemma AfterArray(n: nat, t: Type)
    ensures After(SizeWalker, Array(n, t), 0) == Wrap(After(SizeWalker, t, 0) * ElementCount(n))
  {
  }

  lemma WrapsSmall(x: nat)
    requires x < SIZE_T
    ensures Wrap(x) == x
  {
  }

  /** The first multiple of b at or after v. */
  ghost predicate FirstMultiple(r: nat, v: nat, b: nat) {
    b > 0 && v <= r < v + b && r % b == 0
  }

  predicate IsScalar(t: Type) {
    match t
    case Primitive(c) => IsPrimitive(c)
    case Complex(c) => IsNumber(c)
    case Object => true
    case ObjectOf(_) => true
    case Block => true
    case BlockOf(_) => true
    case Pointer(_) => true
    case _ => false
  }

  function Extent(t: Type): nat {
    match t
    case Primitive(c) => 8 * Bytes(c)
    case Complex(c) => 16 * Bytes(c)
    case _ => WORD
  }

  /** The layout of the C language: each field at the first place after the one before that has
      its alignment. */
  ghost predicate CLayout(fs: Fields, start: nat, offsets: seq<nat>, end: nat) {
    match fs
    case End => offsets == [] && end == start
    case Field(_, t, rest) =>
      && offsets != [] && FirstMultiple(offsets[0], start, Natural(t))
      && CLayout(rest, offsets[0] + Extent(t), offsets[1..], end)
  }

  /** The size walker does not round up for a pointer. */
  predicate PointersAligned(fs: Fields, acc: nat) {
    match fs
    case End => true
    case Field(_, t, rest) =>
      IsScalar(t) && (t.Pointer? ==> acc % WORD == 0) && PointersAligned(rest, After(SizeWalker, t, acc))
  }

  lemma RoundUpIsFirst(v: nat, b: nat)
    requires b > 0 && v + b < SIZE_T
    ensures FirstMultiple(RoundUp(v, b), v, b)
  {
    if v % b != 0 {
      PaddingAligns(v, b);
    }
  }

  lemma ScalarPlaced(t: Type, acc: nat)
    requires IsScalar(t) && (t.Pointer? ==> acc % WORD == 0) && acc + 512 < SIZE_T
    ensures 0 < Natural(t) <= 128 && Natural(t) % 8 == 0
    ensures
      var start := RoundUp(acc, Natural(t));
      FirstMultiple(start, acc, Natural(t)) && After(SizeWalker, t, acc) == start + Extent(t) <= acc + 384
  {
    hide RoundUp, Wrap, Bytes;
    var n := Natural(t);
    if t.Primitive? || t.Complex? {
      BytesBounded(t.code);
    }
    RoundUpIsFirst(acc, n);
    var start := RoundUp(acc, n);
    WrapsSmall(start + Extent(t));
    if t.Pointer? {
      AlreadyRound(acc, WORD);
    }
  }

  lemma BytesBounded(c: char)
    ensures 0 < Bytes(c) <= 16
  {
  }

  lemma AlreadyRound(v: nat, b: nat)
    requires b > 0 && v % b == 0
    ensures RoundUp(v, b) == v
  {
  }

  lemma {:induction false} FieldsPlaced(fs: Fields, acc: nat) returns (offsets: seq<nat>)
    requires PointersAligned(fs, acc) && acc + 512 * NodesOf(fs) < SIZE_T
    ensures CLayout(fs, acc, offsets, AfterFields(SizeWalker, fs, acc))
    ensures AfterFields(SizeWalker, fs, acc) <= acc + 384 * NodesOf(fs)
    ensures NaturalOf(fs) % 8 == 0 && NaturalOf(fs) <= 128 && (fs.Field? ==> NaturalOf(fs) > 0)
  {
    hide After, RoundUp, FirstMultiple, Natural, Extent;
    if fs.End? {
      offsets := [];
    } else {
      ScalarPlaced(fs.first, acc);
      var start := RoundUp(acc, Natural(fs.first));
      var rest := FieldsPlaced(fs.rest, After(SizeWalker, fs.first, acc));
      offsets := [start] + rest;
      assert offsets[1..] == rest;
    }
  }

  /** A structure of scalars gets the size that C gives it, if every pointer in it happens to be
      aligned without padding. */
  lemma StructSizeIsC(name: string, fs: Fields) returns (offsets: seq<nat>, end: nat)
    requires fs.Field? && PointersAligned(fs, 0) && 512 * NodesOf(fs) + 512 < SIZE_T
    ensures CLayout(fs, 0, offsets, end)
    ensures FirstMultiple(After(SizeWalker, Aggregate(StructKind, name, fs), 0), end, NaturalOf(fs))
  {
    hide FirstMultiple, RoundUp, CLayout, PointersAligned;
    offsets := FieldsPlaced(fs, 0);
    end := AfterFields(SizeWalker, fs, 0);
    RoundUpIsFirst(end, NaturalOf(fs));
  }

  /** Otherwise it may be too small: a pointer between two chars gets no padding in front, and the
      structure 16 bytes where C needs 24. */
  lemma UnalignedPointerIsTooSmall()
    ensures !PointersAligned(CharPointerChar(), 0) && CLayout(CharPointerChar(), 0, [0, 64, 128], 136)
    ensures After(SizeWalker, Aggregate(StructKind, "s", CharPointerChar()), 0) == 128
  {
    CharPointerCharInC();
    CharPointerCharFields();
    hide CLayout, PointersAligned, After, AfterFields, NaturalOf;
    StructRounds("s", CharPointerChar());
  }

  lemma StructRounds(name: string, fs: Fields)
    ensures After(SizeWalker, Aggregate(StructKind, name, fs), 0) == RoundUp(AfterFields(SizeWalker, fs, 0), NaturalOf(fs) / 8 * 8)
  {
  }

  lemma CharPointerCharFields()
    ensures AfterFields(SizeWalker, CharPointerChar(), 0) == 80 && NaturalOf(CharPointerChar()) == 64
  {
    var fs, last := CharPointerChar(), Field(None, Primitive('c'), End);
    CharSizes();
    hide After;
    assert AfterFields(SizeWalker, last, 72) == AfterFields(SizeWalker, End, 80) == 80;
    assert AfterFields(SizeWalker, fs.rest, 8) == 80;
    assert NaturalOf(End) == 0 && NaturalOf(last) == 8 && NaturalOf(fs.rest) == 64;
  }

  function CharPointerChar(): Fields {
    Field(None, Primitive('c'), Field(None, Pointer(Void), Field(None, Primitive('c'), End)))
  }

  lemma CharSizes()
    ensures After(SizeWalker, Primitive('c'), 0) == 8 && After(SizeWalker, Pointer(Void), 8) == 72
    ensures After(SizeWalker, Primitive('c'), 72) == 80
  {
    assert Bytes('c') == 1;
    AlreadyRound(0, 8);
    AlreadyRound(72, 8);
    WrapsSmall(8);
    WrapsSmall(72);
    WrapsSmall(80);
    hide Bytes, RoundUp, Wrap;
  }

  lemma CharPointerCharInC()
    ensures !PointersAligned(CharPointerChar(), 0) && CLayout(CharPointerChar(), 0, [0, 64, 128], 136)
  {
    var fs, last := CharPointerChar(), Field(None, Primitive('c'), End);
    CharSizes();
    hide After, AfterFields;
    assert !PointersAligned(fs.rest, 8);
    assert [0, 64, 128][1..] == [64, 128] && [64, 128][1..] == [128] && [128][1..] == [];
    assert CLayout(End, 136, [], 136);
    assert CLayout(last, 128, [128], 136);
    assert CLayout(fs.rest, 8, [64, 128], 136);
  }

  ghost predicate HasField(fs: Fields, t: Type) {
    fs.Field? && (fs.first == t || HasField(fs.rest, t))
  }

  /** A union is as large as its largest field. */
  lemma UnionSize(name: string, fs: Fields)
    ensures forall t :: HasField(fs, t) ==> After(SizeWalker, t, 0) <= AfterFields(UnionWalker, fs, 0)
    ensures AfterFields(UnionWalker, fs, 0) == 0 || HasFieldOfSize(fs, AfterFields(UnionWalker, fs, 0))
    ensures After(SizeWalker, Aggregate(UnionKind, name, fs), 0) == AfterFields(UnionWalker, fs, 0) % SIZE_T
  {
    LargestField(fs, 0);
  }

  lemma {:induction false} LargestField(fs: Fields, acc: nat)
    ensures acc <= AfterFields(UnionWalker, fs, acc)
    ensures forall t :: HasField(fs, t) ==> After(SizeWalker, t, 0) <= AfterFields(UnionWalker, fs, acc)
    ensures AfterFields(UnionWalker, fs, acc) == acc || HasFieldOfSize(fs, AfterFields(UnionWalker, fs, acc))
  {
    if fs.Field? {
      LargestField(fs.rest, After(UnionWalker, fs.first, acc));
    }
  }

  ghost predicate HasFieldOfSize(fs: Fields, size: nat) {
    fs.Field? && (After(SizeWalker, fs.first, 0) == size || HasFieldOfSize(fs.rest, size))
  }

  /** An aggregate is aligned for its most demanding field. */
  lemma {:induction false} GreatestAlignment(fs: Fields)
    ensures forall t :: HasField(fs, t) ==> Natural(t) <= NaturalOf(fs)
    ensures NaturalOf(fs) == 0 || HasFieldAligned(fs, NaturalOf(fs))
  {
    if fs.Field? {
      GreatestAlignment(fs.rest);
    }
  }

  ghost predicate HasFieldAligned(fs: Fields, align: nat) {
    fs.Field? && (Natural(fs.first) == align || HasFieldAligned(fs.rest, align))
  }
}
