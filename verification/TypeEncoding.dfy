/**
  The walkers over type encodings: one accumulates the size, the other the alignment,
  and both must stop where the type ends.  Each is proved to read exactly the print of
  a well-formed type and to accumulate what the type says.
 */
module TypeEncoding {
  import opened Basics
  import opened EncodedTypes

  /** objc_skip_type_qualifiers. */
  method SkipQualifiers(s: string, pos: nat) returns (end: nat)
    requires pos <= |s|
    ensures pos <= end <= |s| && !IsQualifier(At(s, end))
    ensures forall i :: pos <= i < end ==> IsQualifier(At(s, i))
  {
    end := pos;
    while IsQualifier(At(s, end))
      invariant pos <= end <= |s|
      invariant forall i :: pos <= i < end ==> IsQualifier(At(s, i))
      decreases |s| - end
    {
      end := end + 1;
    }
  }

  /** The digits that strtol reads, and their value. */
  method ReadNumber(s: string, pos: nat, ghost n: nat) returns (end: nat, value: nat)
    requires Has(s, pos, Decimal(n)) && !IsDigit(At(s, pos + |Decimal(n)|))
    ensures end == pos + |Decimal(n)| && value == n
  {
    ghost var d := Decimal(n);
    end, value := pos, 0;
    while IsDigit(At(s, end))
      invariant pos <= end <= pos + |d| <= |s| && value == Value(d[..end - pos])
      decreases |s| - end
    {
      HasAt(s, pos, d, end - pos);
      assert d[..end - pos + 1][..end - pos] == d[..end - pos];
      value := value * 10 + DigitValue(s[end]);
      end := end + 1;
    }
    if end < pos + |d| {
      HasAt(s, pos, d, end - pos);
    }
    assert d[..|d|] == d;
    ValueOfDecimal(n);
  }

  /** A body that does not contain its closing character. */
  lemma Delimited(s: string, pos: nat, head: string, body: string, c: char)
    requires Has(s, pos, head + body + [c]) && c !in body
    ensures
      var d := pos + |head| + |body|;
      d < |s| && At(s, d) == c && forall i :: pos + |head| <= i < d ==> At(s, i) != c
  {
    HasBoth(s, pos, head + body, [c]);
    HasBoth(s, pos, head, body);
    HasFirst(s, pos + |head| + |body|, [c]);
    forall i | pos + |head| <= i < pos + |head| + |body|
      ensures At(s, i) != c
    {
      HasAt(s, pos + |head|, body, i - pos - |head|);
      assert body[i - pos - |head|] in body;
    }
  }

  /** Steps to the next occurrence of c. */
  method FindNext(s: string, pos: nat, c: char, ghost d: nat) returns (end: nat)
    requires pos <= d && At(s, d) == c && forall i :: pos <= i < d ==> At(s, i) != c
    ensures end == d
  {
    end := pos;
    while At(s, end) != c
      invariant pos <= end <= d
      decreases d - end
    {
      end := end + 1;
    }
  }

  /** The characters after the @ that tell the forms of an object type apart. */
  lemma ObjectAt(s: string, pos: nat, t: Type)
    requires t.Object? || t.ObjectOf? || t.Block? || t.BlockOf?
    requires Holds(s, pos, t, false)
    ensures At(s, pos + 1) == '?' <==> t.Block? || t.BlockOf?
    ensures At(s, pos + 1) == '"' <==> t.ObjectOf?
    ensures t.Block? || t.BlockOf? ==> (At(s, pos + 2) == '<' <==> t.BlockOf?)
    ensures t.Object? ==> |Print(t)| == 1
    ensures t.Block? ==> |Print(t)| == 2
    ensures t.ObjectOf? ==>
      var d := pos + 2 + |t.className|;
      d + 1 == pos + |Print(t)| && At(s, d) == '"' && forall i :: pos + 2 <= i < d ==> At(s, i) != '"'
    ensures t.BlockOf? ==>
      var d := pos + 3 + |t.signature|;
      d + 1 == pos + |Print(t)| && At(s, d) == '>' && forall i :: pos + 3 <= i < d ==> At(s, i) != '>'
  {
    var p := Print(t);
    if |p| > 1 {
      HasAt(s, pos, p, 1);
    }
    if |p| > 2 {
      HasAt(s, pos, p, 2);
    }
    if t.ObjectOf? {
      Delimited(s, pos, "@\"", t.className, '"');
    } else if t.BlockOf? {
      Delimited(s, pos, "@?<", t.signature, '>');
    }
  }

  /** skip_object_extended_qualifiers: the position of the last character of an object type. */
  method SkipObject(s: string, pos: nat, ghost t: Type) returns (last: nat)
    requires t.Object? || t.ObjectOf? || t.Block? || t.BlockOf?
    requires Holds(s, pos, t, false)
    ensures last + 1 == pos + |Print(t)|
  {
    ObjectAt(s, pos, t);
    hide Holds, Print;
    last := pos;
    if At(s, last + 1) == '?' {
      last := last + 1;
      if At(s, last + 1) == '<' {
        last := FindNext(s, last + 2, '>', pos + 3 + |t.signature|);
      }
    } else if At(s, last + 1) == '"' {
      last := FindNext(s, last + 2, '"', pos + 2 + |t.className|);
    }
  }

  /** The string holds a well-formed type here, followed by something that does not extend it. */
  ghost predicate Holds(s: string, pos: nat, t: Type, pointee: bool) {
    WellFormed(t, pointee) && Has(s, pos, Print(t)) && MayFollow(t, At(s, pos + |Print(t)|))
  }

  /** What the character after the qualifiers says about the type. */
  lemma CoreAt(s: string, pos: nat, t: Type, pointee: bool, p: nat)
    requires Holds(s, pos, t, pointee) && pos <= p <= |s| && !IsQualifier(At(s, p))
    requires forall i :: pos <= i < p ==> IsQualifier(At(s, i))
    ensures
      var c := Core(t);
      && Holds(s, p, c, pointee) && p + |Print(c)| == pos + |Print(t)| && p < |s| && At(s, p) == Print(c)[0]
      && !c.Qualified? && Nodes(c) <= Nodes(t) && forall w, acc :: After(w, t, acc) == After(w, c, acc)
  {
    CoreBegins(s, pos, t, pointee);
    var n := Qualifiers(t);
    assert p == pos + n;
    PrintBegins(Core(t), pointee);
    HasFirst(s, p, Print(Core(t)));
    forall w, acc
      ensures After(w, t, acc) == After(w, Core(t), acc)
    {
      AfterCore(w, t, acc);
    }
  }

  /** The first character of an unqualified type tells what it is. */
  lemma CoreShape(c: Type, pointee: bool)
    requires WellFormed(c, pointee) && !c.Qualified?
    ensures
      Print(c) != [] &&
      var ch := Print(c)[0];
      && (IsPrimitive(ch) <==> c.Primitive?) && (c.Primitive? ==> c.code == ch && |Print(c)| == 1)
      && (ch == '@' <==> c.Object? || c.ObjectOf? || c.Block? || c.BlockOf?)
      && (ch == '?' || ch == 'v' <==> c.Void? || c.Unknown?) && (c.Void? || c.Unknown? ==> |Print(c)| == 1)
      && (ch == 'j' <==> c.Complex?) && (c.Complex? ==> Print(c) == ['j', c.code])
      && (ch == '{' <==> (c.Aggregate? || c.Opaque?) && c.kind.StructKind?)
      && (ch == '(' <==> (c.Aggregate? || c.Opaque?) && c.kind.UnionKind?)
      && (ch == '[' <==> c.Array?)
      && (ch == '^' <==> c.Pointer?)
      && (!c.Unknown? ==> WellFormed(c, false))
  {
  }

  lemma PointeeAt(s: string, pos: nat, t: Type, pointee: bool)
    requires Holds(s, pos, t, pointee) && t.Pointer?
    ensures Holds(s, pos + 1, t.target, true) && pos + 1 + |Print(t.target)| == pos + |Print(t)|
  {
    HasBoth(s, pos, "^", Print(t.target));
  }

  /** objc_skip_typespec's walker. */
  method SizeofType(s: string, pos: nat, size: nat, ghost t: Type, ghost pointee: bool) returns (end: nat, total: nat)
    requires Holds(s, pos, t, pointee)
    ensures end == pos + |Print(t)| && total == After(SizeWalker, t, size)
    decreases Nodes(t), 4
  {
    HasRange(s, pos, Print(t));
    hide Has, MayFollow, IsPrimitive, WellFormed, Print, IsQualifier, Bytes, RoundUp, Core, Wrap, At, After, AfterFields, Natural, ElementCount;
    var p := SkipQualifiers(s, pos);
    CoreAt(s, pos, t, pointee, p);
    ghost var c := Core(t);
    CoreShape(c, pointee);
    SizeOfSimple(c, size);
    var ch := At(s, p);
    if IsPrimitive(ch) {
      return p + 1, Wrap(RoundUp(size, 8 * Bytes(ch)) + 8 * Bytes(ch));
    } else if ch == '@' {
      var last := SkipObject(s, p, c);
      return last + 1, Wrap(RoundUp(size, WORD) + WORD);
    } else if ch == '?' || ch == 'v' {
      return p + 1, size;
    } else if ch == 'j' {
      HasAt(s, p, Print(c), 1);
      var of := At(s, p + 1);
      return p + 2, Wrap(RoundUp(size, 8 * Bytes(of)) + 16 * Bytes(of));
    } else {
      end, total := SizeofCompound(s, p, size, c, pointee);
    }
  }

  /** The cases of the size walker that parse other types. */
  method SizeofCompound(s: string, p: nat, size: nat, ghost c: Type, ghost pointee: bool) returns (end: nat, total: nat)
    requires Holds(s, p, c, pointee) && At(s, p) in "{[(^" && !c.Qualified?
    ensures end == p + |Print(c)| && total == After(SizeWalker, c, size)
    decreases Nodes(c), 3
  {
    CoreShape(c, pointee);
    HasFirst(s, p, Print(c));
    SizeOfSimple(c, size);
    hide Has, MayFollow, IsPrimitive, WellFormed, Print, RoundUp, Wrap, At, After, AfterFields, Natural, ElementCount;
    var ch := At(s, p);
    if ch == '{' {
      end, total := ParseStructOrUnion(s, p, SizeWalker, size, '}', c);
      var align := AlignofTypeBytes(s, p, c);
      total := RoundUp(total, align * 8);
      SizeOfParts(c, size);
    } else if ch == '[' {
      var e, elementSize, count := ParseArray(s, p, SizeWalker, 0, c);
      return e, Wrap(size + elementSize * count);
    } else if ch == '(' {
      var e, unionSize := ParseStructOrUnion(s, p, UnionWalker, 0, ')', c);
      SizeOfParts(c, size);
      return e, Wrap(size + unionSize);
    } else {
      assert ch == '^';
      PointeeAt(s, p, c, pointee);
      var e, _ := SizeofType(s, p + 1, 0, c.target, true);
      return e, Wrap(size + WORD);
    }
  }

  /** sizeof_union_field. */
  method SizeofUnionField(s: string, pos: nat, size: nat, ghost t: Type) returns (end: nat, total: nat)
    requires Holds(s, pos, t, false)
    ensures end == pos + |Print(t)| && total == After(UnionWalker, t, size)
    decreases Nodes(t), 5
  {
    var e, fieldSize := SizeofType(s, pos, 0, t, false);
    return e, Max(size, fieldSize);
  }

  /** The walker for the alignment, which stops where the one for the size does. */
  method AlignofType(s: string, pos: nat, align: nat, ghost t: Type, ghost pointee: bool) returns (end: nat, total: nat)
    requires Holds(s, pos, t, pointee)
    ensures end == pos + |Print(t)| && total == After(AlignWalker, t, align)
    decreases Nodes(t), 1
  {
    HasRange(s, pos, Print(t));
    hide Has, MayFollow, IsPrimitive, WellFormed, Print, IsQualifier, Bytes, RoundUp, Core, Wrap, At;
    var p := SkipQualifiers(s, pos);
    CoreAt(s, pos, t, pointee, p);
    ghost var c := Core(t);
    CoreShape(c, pointee);
    var ch := At(s, p);
    if IsPrimitive(ch) {
      return p + 1, Max(8 * Bytes(ch), align);
    } else if ch == '@' {
      var last := SkipObject(s, p, c);
      return last + 1, Max(WORD, align);
    } else if ch == '?' || ch == 'v' {
      return p + 1, align;
    } else if ch == 'j' {
      HasAt(s, p, Print(c), 1);
      return p + 2, Max(8 * Bytes(At(s, p + 1)), align);
    } else if ch == '{' {
      end, total := ParseStructOrUnion(s, p, AlignWalker, align, '}', c);
      AlignOfParts(c, align);
    } else if ch == '(' {
      end, total := ParseStructOrUnion(s, p, AlignWalker, align, ')', c);
      AlignOfParts(c, align);
    } else if ch == '[' {
      var e, a, _ := ParseArray(s, p, AlignWalker, align, c);
      return e, a;
    } else {
      assert ch == '^';
      PointeeAt(s, p, c, pointee);
      var e, _ := AlignofType(s, p + 1, 0, c.target, true);
      return e, Max(WORD, align);
    }
  }

  lemma SizeOfSimple(c: Type, size: nat)
    ensures c.Primitive? ==> After(SizeWalker, c, size) == Wrap(RoundUp(size, 8 * Bytes(c.code)) + 8 * Bytes(c.code))
    ensures c.Complex? ==> After(SizeWalker, c, size) == Wrap(RoundUp(size, 8 * Bytes(c.code)) + 16 * Bytes(c.code))
    ensures c.Void? || c.Unknown? ==> After(SizeWalker, c, size) == size
    ensures c.Object? || c.ObjectOf? || c.Block? || c.BlockOf? ==> After(SizeWalker, c, size) == Wrap(RoundUp(size, WORD) + WORD)
    ensures c.Pointer? ==> After(SizeWalker, c, size) == Wrap(size + WORD)
    ensures c.Array? ==> After(SizeWalker, c, size) == Wrap(size + After(SizeWalker, c.target, 0) * ElementCount(c.count))
  {
  }

  lemma SizeOfParts(c: Type, size: nat)
    requires c.Aggregate? || c.Opaque?
    ensures
      After(SizeWalker, c, size) ==
      match c.kind
      case StructKind => RoundUp(if c.Opaque? then size else AfterFields(SizeWalker, c.fields, size), Natural(c) / 8 * 8)
      case UnionKind => Wrap(size + if c.Opaque? then 0 else AfterFields(UnionWalker, c.fields, 0))
  {
  }

  lemma AlignOfParts(c: Type, align: nat)
    requires c.Aggregate? || c.Opaque?
    ensures After(AlignWalker, c, align) == if c.Opaque? then align else AfterFields(AlignWalker, c.fields, align)
  {
    if c.Aggregate? {
      AlignOfFields(c.fields, align);
    }
  }

  /** objc_alignof_type. */
  method AlignofTypeBytes(s: string, pos: nat, ghost t: Type) returns (bytes: nat)
    requires Holds(s, pos, t, false)
    ensures bytes == Natural(t) / 8
    decreases Nodes(t), 2
  {
    var _, align := AlignofType(s, pos, 0, t, false);
    return align / 8;
  }

  /** The callback of a parser. */
  method Call(w: Walker, s: string, pos: nat, acc: nat, ghost t: Type) returns (end: nat, total: nat)
    requires Holds(s, pos, t, false)
    ensures end == pos + |Print(t)| && total == After(w, t, acc)
    decreases Nodes(t), 6
  {
    match w
    case SizeWalker => end, total := SizeofType(s, pos, acc, t, false);
    case AlignWalker => end, total := AlignofType(s, pos, acc, t, false);
    case UnionWalker => end, total := SizeofUnionField(s, pos, acc, t);
  }

  lemma HasRange(s: string, pos: nat, p: string)
    requires Has(s, pos, p)
    ensures pos + |p| <= |s|
  {
  }

  lemma ArrayAt(s: string, pos: nat, t: Type, pointee: bool)
    requires Holds(s, pos, t, pointee) && t.Array?
    ensures
      var d := Decimal(t.count);
      var q := pos + 1 + |d|;
      && Has(s, pos + 1, d) && !IsDigit(At(s, q)) && Holds(s, q, t.target, false)
      && q + |Print(t.target)| + 1 == pos + |Print(t)|
  {
    var d, u := Decimal(t.count), Print(t.target);
    HasBoth(s, pos, "[", d + (u + "]"));
    HasBoth(s, pos + 1, d, u + "]");
    var q := pos + 1 + |d|;
    HasBoth(s, q, u, "]");
    HasFirst(s, q + |u|, "]");
    PrintBegins(t.target, false);
    HasFirst(s, q, u);
  }

  /** parse_array. */
  method ParseArray(s: string, pos: nat, w: Walker, acc: nat, ghost t: Type) returns (end: nat, total: nat, count: int)
    requires t.Array? && Holds(s, pos, t, false)
    ensures end == pos + |Print(t)| && total == After(w, t.target, acc) && count == ElementCount(t.count)
    decreases Nodes(t), 0
  {
    ArrayAt(s, pos, t, false);
    var q, n := ReadNumber(s, pos + 1, t.count);
    end, total := Call(w, s, q, acc, t.target);
    return end + 1, total, ElementCount(n);
  }

  /** The rest of the fields, and the closing bracket. */
  ghost predicate FieldsAt(s: string, pos: nat, fs: Fields, close: char) {
    WellFormedFields(fs) && Has(s, pos, PrintFields(fs) + [close])
  }

  lemma FieldBegins(s: string, pos: nat, fs: Fields, close: char)
    requires FieldsAt(s, pos, fs, close) && (close == '}' || close == ')')
    ensures pos < |s| && (fs.End? <==> At(s, pos) == close)
    ensures fs.Field? ==> (fs.tag.Some? <==> At(s, pos) == '"') && (fs.tag.None? ==> Begins(At(s, pos)))
  {
    HasFirst(s, pos, PrintFields(fs) + [close]);
    if fs.Field? {
      PrintBegins(fs.first, false);
    }
  }

  /** A field's label, its type and the fields after it. */
  lemma FieldAt(s: string, pos: nat, fs: Fields, close: char)
    requires FieldsAt(s, pos, fs, close) && fs.Field? && (close == '}' || close == ')')
    ensures
      var q := pos + |PrintLabel(fs.tag)|;
      var e := q + |Print(fs.first)|;
      && Has(s, pos, PrintLabel(fs.tag)) && Holds(s, q, fs.first, false) && FieldsAt(s, e, fs.rest, close)
      && e + |PrintFields(fs.rest)| == pos + |PrintFields(fs)|
  {
    hide Has, MayFollow, Print, PrintFields, PrintLabel, WellFormed, WellFormedFields, Begins, At;
    FieldSplits(s, pos, fs, close);
    FieldParts(fs);
    var e := pos + |PrintLabel(fs.tag)| + |Print(fs.first)|;
    FieldBegins(s, e, fs.rest, close);
    FieldFollows(fs, At(s, e), close);
  }

  lemma FieldParts(fs: Fields)
    requires WellFormedFields(fs) && fs.Field?
    ensures WellFormedFields(fs.rest) && WellFormed(fs.first, false)
  {
  }

  lemma FieldSplits(s: string, pos: nat, fs: Fields, close: char)
    requires Has(s, pos, PrintFields(fs) + [close]) && fs.Field?
    ensures
      var q := pos + |PrintLabel(fs.tag)|;
      var e := q + |Print(fs.first)|;
      && Has(s, pos, PrintLabel(fs.tag)) && Has(s, q, Print(fs.first)) && Has(s, e, PrintFields(fs.rest) + [close])
      && e + |PrintFields(fs.rest)| == pos + |PrintFields(fs)|
  {
    hide Has, Print, PrintLabel;
    var l, u, r := PrintLabel(fs.tag), Print(fs.first), PrintFields(fs.rest);
    assert PrintFields(fs) + [close] == l + (u + (r + [close]));
    HasBoth(s, pos, l, u + (r + [close]));
    HasBoth(s, pos + |l|, u, r + [close]);
  }

  lemma FieldFollows(fs: Fields, c: char, close: char)
    requires fs.Field? && WellFormedFields(fs) && (close == '}' || close == ')')
    requires fs.rest.End? ==> c == close
    requires fs.rest.Field? ==> (fs.rest.tag.Some? <==> c == '"') && (fs.rest.tag.None? ==> Begins(c))
    ensures MayFollow(fs.first, c)
  {
    hide EndsInObject, EndsInBlock;
  }

  /** Steps over a field's name: from one quote to behind the other. */
  method SkipLabel(s: string, pos: nat, ghost name: string) returns (end: nat)
    requires '"' !in name && Has(s, pos, PrintLabel(Some(name)))
    ensures end == pos + |PrintLabel(Some(name))|
  {
    assert PrintLabel(Some(name)) == "\"" + name + "\"";
    Delimited(s, pos, "\"", name, '"');
    end := FindNext(s, pos + 1, '"', pos + 1 + |name|);
    end := end + 1;
  }

  lemma NameAt(s: string, pos: nat, t: Type, pointee: bool)
    requires Holds(s, pos, t, pointee) && (t.Aggregate? || t.Opaque?)
    ensures
      var q := pos + 1 + |t.name|;
      && (forall i :: pos < i < q ==> At(s, i) != Closing(t.kind) && At(s, i) != '=')
      && q < |s| && At(s, q) == (if t.Opaque? then Closing(t.kind) else '=')
      && (t.Opaque? ==> q + 1 == pos + |Print(t)|)
      && (t.Aggregate? ==> FieldsAt(s, q + 1, t.fields, Closing(t.kind)) && q + 1 + |PrintFields(t.fields)| + 1 == pos + |Print(t)|)
  {
    var close := [Closing(t.kind)];
    var tail := if t.Opaque? then close else "=" + (PrintFields(t.fields) + close);
    assert Print(t) == [Opening(t.kind)] + (t.name + tail);
    assert '=' !in t.name && Closing(t.kind) !in t.name && (t.Aggregate? ==> WellFormedFields(t.fields));
    hide *;
    NameSplits(s, pos, Opening(t.kind), t.name, tail, Closing(t.kind));
    if t.Aggregate? {
      HasBoth(s, pos + 1 + |t.name|, "=", PrintFields(t.fields) + close);
      FieldsAre(s, pos + 1 + |t.name| + 1, t.fields, Closing(t.kind));
    }
  }

  lemma FieldsAre(s: string, pos: nat, fs: Fields, close: char)
    requires WellFormedFields(fs) && Has(s, pos, PrintFields(fs) + [close])
    ensures FieldsAt(s, pos, fs, close)
  {
  }

  lemma NameSplits(s: string, pos: nat, open_: char, name: string, tail: string, close: char)
    requires Has(s, pos, [open_] + (name + tail)) && tail != [] && '=' !in name && close !in name
    ensures
      var q := pos + 1 + |name|;
      && Has(s, q, tail) && q < |s| && At(s, q) == tail[0]
      && forall i :: pos < i < q ==> At(s, i) != close && At(s, i) != '='
  {
    HasBoth(s, pos, [open_], name + tail);
    HasBoth(s, pos + 1, name, tail);
    HasFirst(s, pos + 1 + |name|, tail);
    CleanName(s, pos + 1, name, close);
  }

  lemma CleanName(s: string, pos: nat, name: string, close: char)
    requires Has(s, pos, name) && '=' !in name && close !in name
    ensures forall i :: pos <= i < pos + |name| ==> At(s, i) != close && At(s, i) != '='
  {
    forall i | pos <= i < pos + |name|
      ensures At(s, i) != close && At(s, i) != '='
    {
      HasAt(s, pos, name, i - pos);
      assert name[i - pos] in name;
    }
  }

  /** parse_struct_or_union. */
  method ParseStructOrUnion(s: string, pos: nat, w: Walker, acc: nat, close: char, ghost t: Type) returns (end: nat, total: nat)
    requires (t.Aggregate? || t.Opaque?) && Holds(s, pos, t, false) && close == Closing(t.kind)
    ensures end == pos + |Print(t)| && total == if t.Opaque? then acc else AfterFields(w, t.fields, acc)
    decreases Nodes(t), 0
  {
    NameAt(s, pos, t, false);
    hide Holds, FieldsAt, Print, PrintFields, AfterFields, WellFormed;
    var bare;
    end, bare := SkipName(s, pos, close, pos + 1 + |t.name|);
    if bare {
      return end, acc;
    }
    end, total := ParseFields(s, end, w, acc, close, t.fields);
  }

  /** Steps behind the name, which ends at q: an opaque type has no definition after it. */
  method SkipName(s: string, pos: nat, close: char, ghost q: nat) returns (end: nat, bare: bool)
    requires pos < q && (At(s, q) == close || At(s, q) == '=')
    requires forall i :: pos < i < q ==> At(s, i) != close && At(s, i) != '='
    ensures end == q + 1 && (bare <==> At(s, q) == close)
  {
    end := pos + 1;
    if At(s, end) == close {
      return end + 1, true;
    }
    while At(s, end) != '='
      invariant pos < end <= q && At(s, end) != close
      decreases q - end
    {
      end := end + 1;
      if At(s, end) == close {
        return end + 1, true;
      }
    }
    return end + 1, false;
  }

  /** The loop over the fields, up to and including the closing bracket. */
  method ParseFields(s: string, pos: nat, w: Walker, acc: nat, close: char, ghost fs: Fields) returns (end: nat, total: nat)
    requires FieldsAt(s, pos, fs, close) && (close == '}' || close == ')')
    ensures end == pos + |PrintFields(fs)| + 1 && total == AfterFields(w, fs, acc)
    decreases NodesOf(fs), 7
  {
    hide FieldsAt, Holds, After, Print, Begins, Has;
    end, total := pos, acc;
    ghost var rest := fs;
    FieldBegins(s, end, rest, close);
    while At(s, end) != close
      invariant FieldsAt(s, end, rest, close) && (rest.End? <==> At(s, end) == close) && NodesOf(rest) <= NodesOf(fs)
      invariant end + |PrintFields(rest)| == pos + |PrintFields(fs)| && AfterFields(w, rest, total) == AfterFields(w, fs, acc)
      decreases rest
    {
      FieldBegins(s, end, rest, close);
      FieldAt(s, end, rest, close);
      LabelIsClean(s, end, rest, close);
      if At(s, end) == '"' {
        end := SkipLabel(s, end, rest.tag.value);
      }
      end, total := Call(w, s, end, total, rest.first);
      rest := rest.rest;
      FieldBegins(s, end, rest, close);
    }
    end := end + 1;
  }

  lemma LabelIsClean(s: string, pos: nat, fs: Fields, close: char)
    requires FieldsAt(s, pos, fs, close) && fs.Field?
    ensures fs.tag.Some? ==> '"' !in fs.tag.value
  {
  }
}
