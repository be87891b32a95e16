/**
  Method signatures: a return type and the argument types, each with its place in the
  frame.  Counting the arguments and finding one of them undoes the printing.
 */
module Signatures {
  import opened Basics
  import opened EncodedTypes
  import opened TypeEncoding

  /** A type and, usually, its frame offset. */
  datatype Arg = Arg(what: Type, frame: Option<nat>)

  const UINT_RANGE := 0x1_0000_0000

  function PrintFrame(f: Option<nat>): string {
    if f.None? then "" else Decimal(f.value)
  }

  function PrintArg(a: Arg): string {
    Print(a.what) + PrintFrame(a.frame)
  }

  /** The return type comes first. */
  function PrintSignature(args: seq<Arg>): string {
    if args == [] then "" else PrintArg(args[0]) + PrintSignature(args[1..])
  }

  ghost predicate ArgsOk(args: seq<Arg>) {
    forall i :: 0 <= i < |args| ==> WellFormed(args[i].what, false)
  }

  /** The rest of the string is the print of these. */
  ghost predicate ArgsAt(s: string, pos: nat, args: seq<Arg>) {
    ArgsOk(args) && Has(s, pos, PrintSignature(args)) && pos + |PrintSignature(args)| == |s|
  }

  lemma SignatureEnds(s: string, pos: nat, args: seq<Arg>)
    requires ArgsAt(s, pos, args)
    ensures args == [] <==> At(s, pos) == '\0'
    ensures args == [] <==> pos == |s|
    ensures args != [] ==> Begins(At(s, pos))
  {
    if args != [] {
      PrintBegins(args[0].what, false);
      HasFirst(s, pos, PrintSignature(args));
    }
  }

  lemma ArgSplits(s: string, pos: nat, args: seq<Arg>)
    requires ArgsAt(s, pos, args) && args != []
    ensures Has(s, pos, PrintArg(args[0])) && WellFormed(args[0].what, false)
    ensures ArgsAt(s, pos + |PrintArg(args[0])|, args[1..])
  {
    hide Has, WellFormed, PrintArg;
    HasBoth(s, pos, PrintArg(args[0]), PrintSignature(args[1..]));
    assert forall i :: 0 <= i < |args[1..]| ==> args[1..][i] == args[i + 1];
  }

  lemma FrameIsDigits(s: string, q: nat, f: Option<nat>)
    requires Has(s, q, PrintFrame(f))
    ensures q + |PrintFrame(f)| <= |s| && forall i :: q <= i < q + |PrintFrame(f)| ==> IsDigit(At(s, i))
  {
    forall i | q <= i < q + |PrintFrame(f)|
      ensures IsDigit(At(s, i))
    {
      HasAt(s, q, PrintFrame(f), i - q);
    }
  }

  /** The first of the arguments in the string: its type, its frame offset, the others. */
  lemma ArgAt(s: string, pos: nat, args: seq<Arg>)
    requires ArgsAt(s, pos, args) && args != []
    ensures
      var q := pos + |Print(args[0].what)|;
      var e := pos + |PrintArg(args[0])|;
      && Holds(s, pos, args[0].what, false) && ArgsAt(s, e, args[1..]) && !IsDigit(At(s, e)) && q <= e <= |s|
      && forall i :: q <= i < e ==> IsDigit(At(s, i))
  {
    hide ArgsAt, PrintArg, PrintSignature, Has, Holds, WellFormed, Begins, IsDigit, Print;
    ArgSplits(s, pos, args);
    SignatureEnds(s, pos + |PrintArg(args[0])|, args[1..]);
    OneArg(s, pos, args[0]);
  }

  /** An argument that ends the string or is followed by the beginning of a type. */
  lemma OneArg(s: string, pos: nat, a: Arg)
    requires Has(s, pos, PrintArg(a)) && WellFormed(a.what, false)
    requires At(s, pos + |PrintArg(a)|) == '\0' || Begins(At(s, pos + |PrintArg(a)|))
    ensures
      var q := pos + |Print(a.what)|;
      var e := pos + |PrintArg(a)|;
      && Holds(s, pos, a.what, false) && !IsDigit(At(s, e)) && q <= e <= |s|
      && forall i :: q <= i < e ==> IsDigit(At(s, i))
  {
    var q := pos + |Print(a.what)|;
    HasBoth(s, pos, Print(a.what), PrintFrame(a.frame));
    hide MayFollow, WellFormed, IsDigit, Begins, Has, Print, PrintFrame, At;
    FrameIsDigits(s, q, a.frame);
    NoDigit(At(s, pos + |PrintArg(a)|));
    ArgFollows(a.what, At(s, q));
  }

  lemma NoDigit(c: char)
    ensures c == '\0' || Begins(c) ==> !IsDigit(c)
  {
  }

  lemma ArgFollows(t: Type, c: char)
    ensures c == '\0' || Begins(c) || IsDigit(c) ==> MayFollow(t, c)
  {
  }

  /** objc_skip_typespec. */
  method SkipTypespec(s: string, pos: nat, ghost t: Type) returns (end: nat)
    requires Holds(s, pos, t, false)
    ensures end == pos + |Print(t)|
  {
    var ignored;
    end, ignored := SizeofType(s, pos, 0, t, false);
  }

  /** objc_skip_argspec. */
  method SkipArgspec(s: string, pos: nat, ghost args: seq<Arg>) returns (end: nat)
    requires ArgsAt(s, pos, args) && args != []
    ensures end == pos + |PrintArg(args[0])| && ArgsAt(s, end, args[1..])
  {
    ArgAt(s, pos, args);
    hide Holds, ArgsAt, IsDigit, Print;
    end := SkipTypespec(s, pos, args[0].what);
    while IsDigit(At(s, end))
      invariant pos + |Print(args[0].what)| <= end <= pos + |PrintArg(args[0])|
      decreases pos + |PrintArg(args[0])| - end
    {
      end := end + 1;
    }
  }

  /** lengthOfTypeEncoding: types may be null or empty. */
  method LengthOfTypeEncoding(s: string, pos: nat, ghost args: seq<Arg>) returns (length: nat)
    requires ArgsAt(s, pos, args)
    ensures length == if args == [] then 0 else |Print(args[0].what)|
  {
    SignatureEnds(s, pos, args);
    if At(s, pos) == '\0' {
      return 0;
    }
    ArgAt(s, pos, args);
    var end := SkipTypespec(s, pos, args[0].what);
    return end - pos;
  }

  /** method_getNumberOfArguments: one less than the types, as an unsigned int. */
  method NumberOfArguments(s: string, ghost args: seq<Arg>) returns (count: nat)
    requires ArgsAt(s, 0, args)
    ensures count == (|args| - 1) % UINT_RANGE
  {
    hide ArgsAt;
    var pos := 0;
    count := 0;
    ghost var rest := args;
    SignatureEnds(s, pos, rest);
    while At(s, pos) != '\0'
      invariant ArgsAt(s, pos, rest) && (rest == [] <==> At(s, pos) == '\0')
      invariant |rest| <= |args| && count == (|args| - |rest|) % UINT_RANGE
      decreases |rest|
    {
      pos := SkipArgspec(s, pos, rest);
      count := (count + 1) % UINT_RANGE;
      rest := rest[1..];
      SignatureEnds(s, pos, rest);
    }
    count := (count - 1) % UINT_RANGE;
  }

  /** findParameterStart: index 0 is the type after the return type. */
  method FindParameterStart(s: string, index: nat, ghost args: seq<Arg>) returns (start: Option<nat>)
    requires ArgsAt(s, 0, args) && args != []
    ensures start.Some? <==> index + 1 < |args|
    ensures start.Some? ==> start.value <= |s| && ArgsAt(s, start.value, args[index + 1..])
  {
    hide ArgsAt;
    var pos := 0;
    assert args[0..] == args;
    for i := 0 to index + 1
      invariant i < |args| && ArgsAt(s, pos, args[i..])
    {
      pos := SkipArgspec(s, pos, args[i..]);
      assert args[i..][1..] == args[i + 1..];
      SignatureEnds(s, pos, args[i + 1..]);
      if At(s, pos) == '\0' {
        return None;
      }
    }
    SignatureEnds(s, pos, args[index + 1..]);
    AtMost(s, pos, args[index + 1..]);
    return Some(pos);
  }

  lemma AtMost(s: string, pos: nat, args: seq<Arg>)
    requires ArgsAt(s, pos, args)
    ensures pos <= |s|
  {
  }

  /** copyTypeEncoding. */
  method CopyTypeEncoding(s: string, pos: nat, ghost args: seq<Arg>) returns (copy: string)
    requires ArgsAt(s, pos, args)
    ensures copy == if args == [] then "" else Print(args[0].what)
  {
    var length := LengthOfTypeEncoding(s, pos, args);
    if args != [] {
      ArgAt(s, pos, args);
      HasSlice(s, pos, Print(args[0].what));
    }
    return s[pos..pos + length];
  }

  /** method_copyArgumentType of a printed signature gives back the argument's type. */
  method CopyArgumentType(s: string, index: nat, ghost args: seq<Arg>) returns (copy: Option<string>)
    requires ArgsAt(s, 0, args) && args != []
    ensures copy == if index + 1 < |args| then Some(Print(args[index + 1].what)) else None
  {
    var start := FindParameterStart(s, index, args);
    if start.None? {
      return None;
    }
    var text := CopyTypeEncoding(s, start.value, args[index + 1..]);
    return Some(text);
  }

  /** method_getArgumentType: the type and a terminator if they fit, otherwise as much as fits. */
  method GetArgumentType(s: string, index: nat, room: nat, ghost args: seq<Arg>) returns (dst: string)
    requires ArgsAt(s, 0, args) && args != []
    ensures
      var text := if index + 1 < |args| then Print(args[index + 1].what) else "";
      dst == if |text| < room then text + ['\0'] else text[..room]
  {
    var start := FindParameterStart(s, index, args);
    if start.None? {
      return if room > 0 then ['\0'] else [];
    }
    var text := CopyTypeEncoding(s, start.value, args[index + 1..]);
    return if |text| < room then text + ['\0'] else text[..room];
  }

  /** Any printed signature is one the methods above can be asked about. */
  lemma PrintedSignature(args: seq<Arg>)
    requires ArgsOk(args)
    ensures ArgsAt(PrintSignature(args), 0, args)
  {
  }
}
