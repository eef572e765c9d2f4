/** src/global/metadata.cpp: metadata as one string, numbers and a link target between separators. */
module Metadata {
  import opened Bits
  import opened ChunkCalc
  import opened Decimal

  const MSP: char := '|'
  const NUL: char := '\0'

  /** The compile-time switches of the optional fields. */
  datatype Config = Config(atime: bool, mtime: bool, ctime: bool, links: bool, blocks: bool, symlinks: bool)

  datatype Md = Md(mode: nat, size: nat, atime: int, mtime: int, ctime: int, links: nat, blocks: int, target: string)

  /** S_ISLNK. */
  predicate IsLink(mode: nat) { mode / 0x1000 % 16 == 10 }

  predicate Signed64(x: int) { 0 - OFFSET_LIMIT <= x < OFFSET_LIMIT }

  predicate Widths(md: Md) {
    && md.mode < 0x1_0000_0000 && md.size < WORD && Signed64(md.atime) && Signed64(md.mtime) && Signed64(md.ctime)
    && md.links < WORD && Signed64(md.blocks)
  }

  /** Field widths, and what the constructors assert of the target. */
  predicate Valid(md: Md) { Widths(md) && (md.target == "" || IsLink(md.mode)) }

  /** The fields that the switches keep. */
  function Kept(cfg: Config, md: Md): Md {
    Md(md.mode, md.size, if cfg.atime then md.atime else 0, if cfg.mtime then md.mtime else 0,
       if cfg.ctime then md.ctime else 0, if cfg.links then md.links else 0, if cfg.blocks then md.blocks else 0,
       if cfg.symlinks then md.target else "")
  }

  // ---- Writing ----

  function Field(on: bool, x: int): string { if on then [MSP] + PrintInt(x) else "" }

  function TargetText(cfg: Config, md: Md): string { if cfg.symlinks then [MSP] + md.target else "" }

  /** The text from each optional field on. */
  function FromBlocks(cfg: Config, md: Md): string { Field(cfg.blocks, md.blocks) + TargetText(cfg, md) }

  function FromLinks(cfg: Config, md: Md): string { Field(cfg.links, md.links) + FromBlocks(cfg, md) }

  function FromCtime(cfg: Config, md: Md): string { Field(cfg.ctime, md.ctime) + FromLinks(cfg, md) }

  function FromMtime(cfg: Config, md: Md): string { Field(cfg.mtime, md.mtime) + FromCtime(cfg, md) }

  function FromAtime(cfg: Config, md: Md): string { Field(cfg.atime, md.atime) + FromMtime(cfg, md) }

  function FromSize(cfg: Config, md: Md): string { Field(true, md.size) + FromAtime(cfg, md) }

  function Text(cfg: Config, md: Md): string { PrintInt(md.mode) + FromSize(cfg, md) }

  /** The order of the fields, by example. */
  lemma TextByExample()
    ensures Text(Config(true, true, true, true, true, true), Md(1, 2, 3, 4, 5, 6, 7, "t")) == "1|2|3|4|5|6|7|t"
    ensures Text(Config(false, true, false, false, true, false), Md(1, 2, 3, 4, 5, 6, 7, "t")) == "1|2|4|7"
  {
  }

  /** One optional field; text is what the finished string will be. */
  method Append(s0: string, on: bool, x: int, ghost from: string, ghost rest: string, ghost text: string)
    returns (s: string)
    requires s0 + from == text && from == Field(on, x) + rest
    ensures s + rest == text
  {
    s := s0;
    if on {
      s := s + [MSP];
      s := s + PrintInt(x);
      assert s + rest == s0 + (Field(on, x) + rest);
    } else {
      assert Field(on, x) + rest == rest;
    }
  }

  /** Metadata::serialize. */
  method Serialize(cfg: Config, md: Md) returns (s: string)
    ensures s == Text(cfg, md)
  {
    s := PrintInt(md.mode);
    s := Append(s, true, md.size, FromSize(cfg, md), FromAtime(cfg, md), Text(cfg, md));
    s := Append(s, cfg.atime, md.atime, FromAtime(cfg, md), FromMtime(cfg, md), Text(cfg, md));
    s := Append(s, cfg.mtime, md.mtime, FromMtime(cfg, md), FromCtime(cfg, md), Text(cfg, md));
    s := Append(s, cfg.ctime, md.ctime, FromCtime(cfg, md), FromLinks(cfg, md), Text(cfg, md));
    s := Append(s, cfg.links, md.links, FromLinks(cfg, md), FromBlocks(cfg, md), Text(cfg, md));
    s := Append(s, cfg.blocks, md.blocks, FromBlocks(cfg, md), TargetText(cfg, md), Text(cfg, md));
    if cfg.symlinks {
      s := s + [MSP] + md.target;
    }
  }

  // ---- Reading ----

  /** A number and the index behind it, or an exception or failed assertion. */
  datatype Read = Bad | Got(value: int, at: nat)

  predicate HasSign(s: string, at: nat) { at < |s| && (s[at] == '-' || s[at] == '+') }

  /** isspace. */
  predicate IsBlank(ch: char) { ch == ' ' || '\t' <= ch <= '\r' }

  function SkipBlanks(s: string, at: nat): nat
    decreases |s| - at
  {
    if at < |s| && IsBlank(s[at]) then SkipBlanks(s, at + 1) else at
  }

  /** The sign and the digits that strtol and strtoul look at; they differ in the range. */
  function SignedDigits(s: string, at: nat): Read {
    var from := if HasSign(s, at) then at + 1 else at;
    if from < |s| && IsDigit(s[from]) then
      var d := ScanDigits(s, from, 0);
      Got(if HasSign(s, at) && s[at] == '-' then 0 - d.value else d.value, d.at)
    else Bad
  }

  /** Both skip blanks first. */
  function Magnitude(s: string, at: nat): Read { SignedDigits(s, SkipBlanks(s, at)) }

  /** std::stol. */
  function Stol(s: string, at: nat): Read {
    var r := Magnitude(s, at);
    if r.Got? && Signed64(r.value) then r else Bad
  }

  /** std::stoul: a negative number wraps around. */
  function Stoul(s: string, at: nat): Read {
    var r := Magnitude(s, at);
    if r.Got? && 0 - WORD < r.value < WORD then Got(if r.value < 0 then r.value + WORD else r.value, r.at) else Bad
  }

  /** The cast of a signed value to an unsigned field. */
  function ToUnsigned(x: int): nat { if 0 <= x then x else if x + WORD < 0 then 0 else x + WORD }

  /** The cast of an unsigned value to a signed field. */
  function ToSigned(x: int): int { if x >= OFFSET_LIMIT then x - WORD else x }

  /** One optional field behind the last one read. */
  function Next(last: Read, on: bool, signed: bool, s: string): Read {
    if last.Bad? then Bad
    else if !on then Got(0, last.at)
    else if last.at >= |s| || s[last.at] != MSP then Bad
    else if signed then Stol(s, last.at + 1)
    else Stoul(s, last.at + 1)
  }

  /** The C string from index at on. */
  function CText(s: string, at: nat): string
    decreases |s| - at
  {
    if at >= |s| || s[at] == NUL then "" else [s[at]] + CText(s, at + 1)
  }

  datatype Parsed = Failed | Parsed(md: Md, at: nat)

  /** The string is used up at index at. */
  predicate UsedUp(s: string, at: nat) { at >= |s| || s[at] == NUL }

  /** The numbers, each read where the one before it ended. */
  datatype Numbers = Numbers(mode: Read, size: Read, atime: Read, mtime: Read, ctime: Read, links: Read, blocks: Read)

  function ReadNumbers(cfg: Config, s: string): Numbers {
    var mode := Stoul(s, 0);
    var size := Next(mode, true, true, s);
    var atime := Next(size, cfg.atime, true, s);
    var mtime := Next(atime, cfg.mtime, true, s);
    var ctime := Next(mtime, cfg.ctime, true, s);
    var links := Next(ctime, cfg.links, false, s);
    var blocks := Next(links, cfg.blocks, false, s);
    Numbers(mode, size, atime, mtime, ctime, links, blocks)
  }

  function ValueOf(r: Read): int { if r.Got? then r.value else 0 }

  /** The numbers cast to their fields. */
  function Cast(n: Numbers): Md {
    Md(ToUnsigned(ValueOf(n.mode)) % 0x1_0000_0000, ToUnsigned(ValueOf(n.size)), ValueOf(n.atime), ValueOf(n.mtime),
       ValueOf(n.ctime), ToUnsigned(ValueOf(n.links)), ToSigned(ValueOf(n.blocks)), "")
  }

  /** What is left behind the numbers: the target, or nothing. */
  function Finish(cfg: Config, s: string, md: Md, at: nat): Parsed {
    if !cfg.symlinks then
      if UsedUp(s, at) then Parsed(md, at) else Failed
    else if at >= |s| || s[at] != MSP then Failed
    else
      var target := CText(s, at + 1);
      if target == "" || IsLink(md.mode) then Parsed(md.(target := target), at + 1 + |target|) else Failed
  }

  /** Metadata(const std::string&). */
  function Parse(cfg: Config, s: string): Parsed {
    var n := ReadNumbers(cfg, s);
    if n.blocks.Bad? then Failed else Finish(cfg, s, Cast(n), n.blocks.at)
  }

  // ---- Round trip ----

  lemma PrintIntStarts(x: int)
    ensures PrintInt(x) != "" && (PrintInt(x)[0] == '-' <==> x < 0) && PrintInt(x)[0] != '+'
    ensures x >= 0 ==> IsDigit(PrintInt(x)[0])
  {
    PrintDigits(if x < 0 then -x else x);
  }

  lemma NegativePrinted(s: string, at: nat, x: int, rest: string)
    requires x < 0 && GoesOn(s, at, PrintInt(x) + rest) && NoDigitFirst(rest)
    ensures Magnitude(s, at) == Got(x, at + |PrintInt(x)|) && GoesOn(s, at + |PrintInt(x)|, rest)
  {
    GoesOnStep(s, at, PrintInt(x) + rest);
    assert (PrintInt(x) + rest)[1..] == Print(-x) + rest;
    PrintDigits(-x);
    GoesOnStep(s, at + 1, Print(-x) + rest);
    ScanPrinted(s, at + 1, -x, rest);
  }

  /** Reading a printed number gives it back and stops behind it. */
  lemma MagnitudePrinted(s: string, at: nat, x: int, rest: string)
    requires GoesOn(s, at, PrintInt(x) + rest) && NoDigitFirst(rest)
    ensures Magnitude(s, at) == Got(x, at + |PrintInt(x)|) && GoesOn(s, at + |PrintInt(x)|, rest)
  {
    if x < 0 {
      NegativePrinted(s, at, x, rest);
    } else {
      PrintIntStarts(x);
      GoesOnStep(s, at, Print(x) + rest);
      ScanPrinted(s, at, x, rest);
    }
  }

  lemma FieldStarts(s: string, at: nat, x: int, rest: string)
    requires GoesOn(s, at, Field(true, x) + rest)
    ensures at < |s| && s[at] == MSP && GoesOn(s, at + 1, PrintInt(x) + rest)
  {
    GoesOnStep(s, at, Field(true, x) + rest);
    assert (Field(true, x) + rest)[1..] == PrintInt(x) + rest;
  }

  /** A switched-on field is its blank and its number. */
  lemma FieldRead(s: string, at: nat, x: int, rest: string)
    requires GoesOn(s, at, Field(true, x) + rest) && NoDigitFirst(rest)
    ensures at < |s| && s[at] == MSP
    ensures var r := Magnitude(s, at + 1); r.Got? && r.value == x && GoesOn(s, r.at, rest)
  {
    FieldStarts(s, at, x, rest);
    MagnitudePrinted(s, at + 1, x, rest);
  }

  /** A switched-off field is not there. */
  lemma NextOff(last: Read, signed: bool, s: string, x: int, rest: string)
    requires last.Got? && GoesOn(s, last.at, Field(false, x) + rest)
    ensures var r := Next(last, false, signed, s); r == Got(0, last.at) && GoesOn(s, r.at, rest)
  {
    assert Field(false, x) + rest == rest;
  }

  /** A field read with stol: it has to fit 63 bits. */
  lemma NextSigned(last: Read, on: bool, s: string, x: int, rest: string)
    requires last.Got? && GoesOn(s, last.at, Field(on, x) + rest) && NoDigitFirst(rest)
    ensures var r := Next(last, on, true, s);
      if on && !Signed64(x) then r.Bad? else r.Got? && GoesOn(s, r.at, rest) && r.value == if on then x else 0
  {
    if on {
      FieldRead(s, last.at, x, rest);
    } else {
      NextOff(last, true, s, x, rest);
    }
  }

  /** A field read with stoul: a negative number has wrapped. */
  lemma NextUnsigned(last: Read, on: bool, s: string, x: int, rest: string)
    requires last.Got? && GoesOn(s, last.at, Field(on, x) + rest) && NoDigitFirst(rest) && 0 - WORD < x < WORD
    ensures var r := Next(last, on, false, s);
      r.Got? && GoesOn(s, r.at, rest) && r.value == if !on then 0 else if x >= 0 then x else x + WORD
  {
    if on {
      FieldRead(s, last.at, x, rest);
    } else {
      NextOff(last, false, s, x, rest);
    }
  }

  lemma FieldNoDigit(on: bool, x: int, rest: string)
    requires NoDigitFirst(rest)
    ensures NoDigitFirst(Field(on, x) + rest)
  {
    if !on { assert Field(on, x) + rest == rest; }
  }

  predicate NulFree(t: string) { forall i :: 0 <= i < |t| ==> t[i] != NUL }

  lemma {:induction false} CTextOf(s: string, at: nat, t: string)
    requires GoesOn(s, at, t)
    ensures CText(s, at) == t <==> NulFree(t)
    ensures NulFree(CText(s, at)) && |CText(s, at)| <= |t|
    decreases |t|
  {
    if t != "" {
      GoesOnStep(s, at, t);
      CTextOf(s, at + 1, t[1..]);
      if t[0] != NUL {
        assert [t[0]] + t[1..] == t;
        assert NulFree(t) <==> NulFree(t[1..]) by { assert forall i :: 1 <= i < |t| ==> t[i] == t[1..][i - 1]; }
      }
    }
  }

  lemma NoDigits(cfg: Config, md: Md)
    ensures NoDigitFirst(TargetText(cfg, md)) && NoDigitFirst(FromBlocks(cfg, md)) && NoDigitFirst(FromLinks(cfg, md))
    ensures NoDigitFirst(FromCtime(cfg, md)) && NoDigitFirst(FromMtime(cfg, md)) && NoDigitFirst(FromAtime(cfg, md))
    ensures NoDigitFirst(FromSize(cfg, md))
  {
    FieldNoDigit(cfg.blocks, md.blocks, TargetText(cfg, md));
    FieldNoDigit(cfg.links, md.links, FromBlocks(cfg, md));
    FieldNoDigit(cfg.ctime, md.ctime, FromLinks(cfg, md));
    FieldNoDigit(cfg.mtime, md.mtime, FromCtime(cfg, md));
    FieldNoDigit(cfg.atime, md.atime, FromMtime(cfg, md));
    FieldNoDigit(true, md.size, FromAtime(cfg, md));
  }

  /** Mode and size. */
  lemma ReadsSize(cfg: Config, md: Md, s: string)
    requires Widths(md) && s == Text(cfg, md)
    ensures var mode := Stoul(s, 0); var size := Next(mode, true, true, s);
      && mode.Got? && mode.value == md.mode
      && (if md.size >= OFFSET_LIMIT then size.Bad?
          else size.Got? && size.value == md.size && GoesOn(s, size.at, FromAtime(cfg, md)))
  {
    NoDigits(cfg, md);
    assert s[0..] == s;
    MagnitudePrinted(s, 0, md.mode, FromSize(cfg, md));
    NextSigned(Stoul(s, 0), true, s, md.size, FromAtime(cfg, md));
  }

  /** The three times. */
  lemma ReadsTimes(cfg: Config, md: Md, s: string, size: Read)
    requires Widths(md) && size.Got? && GoesOn(s, size.at, FromAtime(cfg, md))
    ensures var atime := Next(size, cfg.atime, true, s); var mtime := Next(atime, cfg.mtime, true, s);
      var ctime := Next(mtime, cfg.ctime, true, s);
      && ctime.Got? && GoesOn(s, ctime.at, FromLinks(cfg, md))
      && atime.Got? && atime.value == Kept(cfg, md).atime && mtime.Got? && mtime.value == Kept(cfg, md).mtime
      && ctime.value == Kept(cfg, md).ctime
  {
    NoDigits(cfg, md);
    NextSigned(size, cfg.atime, s, md.atime, FromMtime(cfg, md));
    var atime := Next(size, cfg.atime, true, s);
    NextSigned(atime, cfg.mtime, s, md.mtime, FromCtime(cfg, md));
    var mtime := Next(atime, cfg.mtime, true, s);
    NextSigned(mtime, cfg.ctime, s, md.ctime, FromLinks(cfg, md));
  }

  /** Link count and blocks. */
  lemma ReadsCounts(cfg: Config, md: Md, s: string, ctime: Read)
    requires Widths(md) && ctime.Got? && GoesOn(s, ctime.at, FromLinks(cfg, md))
    ensures var links := Next(ctime, cfg.links, false, s); var blocks := Next(links, cfg.blocks, false, s);
      && links.Got? && ToUnsigned(links.value) == Kept(cfg, md).links
      && blocks.Got? && ToSigned(blocks.value) == Kept(cfg, md).blocks && GoesOn(s, blocks.at, TargetText(cfg, md))
  {
    NoDigits(cfg, md);
    NextUnsigned(ctime, cfg.links, s, md.links, FromBlocks(cfg, md));
    NextUnsigned(Next(ctime, cfg.links, false, s), cfg.blocks, s, md.blocks, TargetText(cfg, md));
  }

  lemma {:induction false} ReadsTarget(cfg: Config, md: Md, s: string, at: nat)
    requires cfg.symlinks && GoesOn(s, at, TargetText(cfg, md))
    ensures at < |s| && s[at] == MSP && (CText(s, at + 1) == md.target <==> NulFree(md.target))
    ensures |CText(s, at + 1)| <= |md.target| && at + 1 + |md.target| == |s|
  {
    GoesOnStep(s, at, TargetText(cfg, md));
    assert TargetText(cfg, md)[1..] == md.target;
    CTextOf(s, at + 1, md.target);
  }

  /** The fields of n are the values of the parts read. */
  lemma CastKept(cfg: Config, md: Md, n: Numbers)
    requires Widths(md) && n.mode.Got? && n.mode.value == md.mode && n.size.Got? && n.size.value == md.size
    requires n.atime.Got? && n.atime.value == Kept(cfg, md).atime && n.mtime.Got?
      && n.mtime.value == Kept(cfg, md).mtime
    requires n.ctime.Got? && n.ctime.value == Kept(cfg, md).ctime
    requires n.links.Got? && ToUnsigned(n.links.value) == Kept(cfg, md).links
    requires n.blocks.Got? && ToSigned(n.blocks.value) == Kept(cfg, md).blocks
    ensures Cast(n) == Kept(cfg, md).(target := "")
  {
  }

  /** A size that does not fit stops the reading. */
  lemma BadSize(cfg: Config, s: string)
    requires Next(Stoul(s, 0), true, true, s).Bad?
    ensures ReadNumbers(cfg, s).blocks.Bad?
  {
  }

  /** Numbers read from a serialised entry. */
  lemma ReadsNumbers(cfg: Config, md: Md, s: string)
    requires Widths(md) && s == Text(cfg, md)
    ensures var n := ReadNumbers(cfg, s);
      if md.size >= OFFSET_LIMIT then n.blocks.Bad?
      else n.blocks.Got? && GoesOn(s, n.blocks.at, TargetText(cfg, md)) && Cast(n) == Kept(cfg, md).(target := "")
  {
    ReadsSize(cfg, md, s);
    if md.size >= OFFSET_LIMIT {
      BadSize(cfg, s);
    } else {
      var n := ReadNumbers(cfg, s);
      ReadsTimes(cfg, md, s, n.size);
      ReadsCounts(cfg, md, s, n.ctime);
      CastKept(cfg, md, n);
    }
  }

  lemma FinishTarget(cfg: Config, md: Md, s: string, at: nat)
    requires Valid(md) && GoesOn(s, at, TargetText(cfg, md))
    ensures Finish(cfg, s, Kept(cfg, md).(target := ""), at) == Parsed(Kept(cfg, md), |s|)
       <==> (cfg.symlinks ==> NulFree(md.target))
  {
    if cfg.symlinks { ReadsTarget(cfg, md, s, at); }
  }

  /** For every combination of switches, parsing a serialised entry gives back every field that is
      switched on and uses up the string, exactly when the size fits 63 bits and the target has no NUL:
      the size is written as an unsigned and read as a signed number. */
  lemma RoundTrip(cfg: Config, md: Md)
    requires Valid(md)
    ensures Parse(cfg, Text(cfg, md)) == Parsed(Kept(cfg, md), |Text(cfg, md)|)
       <==> md.size < OFFSET_LIMIT && (cfg.symlinks ==> NulFree(md.target))
  {
    var s := Text(cfg, md);
    ReadsNumbers(cfg, md, s);
    if md.size < OFFSET_LIMIT {
      FinishTarget(cfg, md, s, ReadNumbers(cfg, s).blocks.at);
    }
  }

  /** S_ISLNK by the numbers: the type bits of a 16-bit mode are 0xA000. */
  lemma LinkModes(mode: nat)
    requires mode < 0x1_0000
    ensures IsLink(mode) <==> 0xA000 <= mode < 0xB000
  {
  }

  /** A symbolic link, mode 0120777, with any target without NUL is loaded with that target. */
  lemma LinkRoundTrip(cfg: Config, md: Md)
    requires cfg.symlinks && Widths(md) && md.mode == 0xA1FF && md.size < OFFSET_LIMIT && NulFree(md.target)
    ensures Parse(cfg, Text(cfg, md)) == Parsed(Kept(cfg, md), |Text(cfg, md)|) && Kept(cfg, md).target == md.target
  {
    LinkModes(0xA1FF);
    RoundTrip(cfg, md);
  }

  lemma FinishFile(cfg: Config, md: Md, s: string, at: nat)
    requires cfg.symlinks && !IsLink(md.mode) && md.target != "" && NulFree(md.target)
      && GoesOn(s, at, TargetText(cfg, md))
    ensures Finish(cfg, s, Kept(cfg, md).(target := ""), at).Failed?
  {
    ReadsTarget(cfg, md, s, at);
  }

  /** A regular file, mode 0100644, that has a target cannot be loaded. */
  lemma FileTarget(cfg: Config, md: Md)
    requires cfg.symlinks && Widths(md) && md.mode == 0x81A4 && md.size < OFFSET_LIMIT && md.target != ""
      && NulFree(md.target)
    ensures Parse(cfg, Text(cfg, md)).Failed?
  {
    var s := Text(cfg, md);
    LinkModes(0x81A4);
    ReadsNumbers(cfg, md, s);
    FinishFile(cfg, md, s, ReadNumbers(cfg, s).blocks.at);
  }

  /** The constructor, for the strings it is meant for. */
  method Deserialize(cfg: Config, s: string) returns (r: Parsed)
    ensures forall md :: Valid(md) && s == Text(cfg, md) ==>
      (r == Parsed(Kept(cfg, md), |s|) <==> md.size < OFFSET_LIMIT && (cfg.symlinks ==> NulFree(md.target)))
  {
    var n := ReadNumbers(cfg, s);
    r := if n.blocks.Bad? then Failed else Finish(cfg, s, Cast(n), n.blocks.at);
    forall md | Valid(md) && s == Text(cfg, md)
      ensures r == Parsed(Kept(cfg, md), |s|) <==> md.size < OFFSET_LIMIT && (cfg.symlinks ==> NulFree(md.target))
    {
      RoundTrip(cfg, md);
    }
  }

  /** Storing an entry and loading it again. */
  method Reload(cfg: Config, md: Md) returns (r: Parsed)
    requires Valid(md)
    ensures r.Parsed? && r.md == Kept(cfg, md) && r.at == |Text(cfg, md)|
       <==> md.size < OFFSET_LIMIT && (cfg.symlinks ==> NulFree(md.target))
  {
    var s := Serialize(cfg, md);
    r := Deserialize(cfg, s);
  }
}
