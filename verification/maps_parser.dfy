/** The parser of /proc/self/maps that builds the object list. */
module MapsParser {
  import opened Common

  // ---- numbers ----

  const TWO64: nat := 0x1_0000_0000_0000_0000

  function HexDigit(c: char): (d: int)
    ensures -1 <= d < 16
  {
    if '0' <= c <= '9' then c as int - '0' as int
    else if 'a' <= c <= 'f' then c as int - 'a' as int + 10
    else if 'A' <= c <= 'F' then c as int - 'A' as int + 10
    else -1
  }

  predicate IsHex(s: string) {
    forall i :: 0 <= i < |s| ==> HexDigit(s[i]) >= 0
  }

  /** The number that a string of hex digits denotes. */
  function HexVal(s: string): nat
    requires IsHex(s)
  {
    if s == [] then 0 else 16 * HexVal(s[..|s| - 1]) + HexDigit(s[|s| - 1])
  }

  /** hex_to_int, on the characters from high_byte to low_byte: 1 for more than 17 of them, 2 for one that is not
      a hex digit, else 0 and the value, of which the upper bits are shifted out. */
  method HexToInt(s: string) returns (code: int, data: nat)
    requires s != []
    ensures code == if |s| > 17 then 1 else if IsHex(s) then 0 else 2
    ensures code == 0 ==> data == HexVal(s) % TWO64
  {
    data := 0;
    if |s| - 1 > 16 {
      return 1, 0;
    }
    var i := 0;
    while i < |s|
      invariant 0 <= i <= |s| && IsHex(s[..i]) && data == HexVal(s[..i]) % TWO64
    {
      var d := HexDigit(s[i]);
      if d < 0 {
        return 2, 0;
      }
      assert s[..i + 1][..i] == s[..i];
      ShiftIn(HexVal(s[..i]), d);
      data := data * 16 % TWO64 + d;
      i := i + 1;
    }
    assert s[..|s|] == s;
    code := 0;
  }

  /** (data << 4) | digit on 64 bits */
  lemma ShiftIn(v: nat, d: nat)
    requires d < 16
    ensures (v % TWO64) * 16 % TWO64 + d == (16 * v + d) % TWO64
  {
    var q, r := v / TWO64, v % TWO64;
    assert v == q * TWO64 + r;
    var q2, r2 := (16 * r) / TWO64, (16 * r) % TWO64;
    assert 16 * r == q2 * TWO64 + r2 && r2 % 16 == 0;
    assert 16 * v + d == (16 * q + q2) * TWO64 + (r2 + d);
    Remainder(16 * q + q2, r2 + d);
  }

  lemma Remainder(k: nat, r: nat)
    requires r < TWO64
    ensures (k * TWO64 + r) % TWO64 == r
  {
  }

  function Digit(d: nat): char
    requires d < 16
  {
    if d < 10 then '0' + d as char else 'a' + (d - 10) as char
  }

  /** How an address is printed. */
  function ToHex(n: nat): (s: string)
    ensures s != [] && IsHex(s) && HexVal(s) == n
  {
    if n < 16 then [Digit(n)]
    else
      var s := ToHex(n / 16) + [Digit(n % 16)];
      assert s[..|s| - 1] == ToHex(n / 16);
      s
  }

  function Pow16(n: nat): nat {
    if n == 0 then 1 else 16 * Pow16(n - 1)
  }

  lemma {:induction false} HexLength(n: nat, k: nat)
    requires n < Pow16(k) && k > 0
    ensures |ToHex(n)| <= k
  {
    if n >= 16 {
      HexLength(n / 16, k - 1);
    }
  }

  lemma SixteenDigits()
    ensures Pow16(16) == TWO64
  {
    assert Pow16(3) == 0x1000;
    assert Pow16(6) == 0x100_0000;
    assert Pow16(9) == 0x10_0000_0000;
    assert Pow16(12) == 0x1_0000_0000_0000;
    assert Pow16(15) == 0x1000_0000_0000_0000;
  }

  predicate IsDec(s: string) {
    forall i :: 0 <= i < |s| ==> '0' <= s[i] <= '9'
  }

  /** The number that a string of decimal digits denotes. */
  function Dec(s: string): nat
    requires IsDec(s)
  {
    if s == [] then 0 else 10 * Dec(s[..|s| - 1]) + (s[|s| - 1] as int - '0' as int)
  }

  predicate IsWhite(c: char) {
    c == ' ' || '\t' <= c <= '\r'
  }

  function SkipWhite(s: string): string {
    if s != [] && IsWhite(s[0]) then SkipWhite(s[1..]) else s
  }

  /** The digits that a string starts with. */
  function Digits(s: string): (d: string)
    ensures IsDec(d)
  {
    if s != [] && '0' <= s[0] <= '9' then [s[0]] + Digits(s[1..]) else []
  }

  /** strtol with base 10: white space, a sign, digits, and saturation at 63 bits. */
  function StrToL(s: string): int {
    var t := SkipWhite(s);
    var signed := t != [] && (t[0] == '-' || t[0] == '+');
    var v: int := Dec(Digits(if signed then t[1..] else t));
    if signed && t[0] == '-' then (if v <= TWO63 then -v else -TWO63) else if v < TWO63 then v else TWO63 - 1
  }

  const TWO63: int := 0x8000_0000_0000_0000

  /** The low 32 bits of what atoi gives. */
  function InodeWord(s: string): (w: nat)
    ensures w < 0x1_0000_0000
  {
    StrToL(s) % 0x1_0000_0000
  }

  lemma {:induction false} AllDigits(s: string)
    requires IsDec(s)
    ensures Digits(s) == s && SkipWhite(s) == s
  {
    if s == [] {
    } else {
      AllDigits(s[1..]);
    }
  }

  /** A line counts as anonymous exactly if its inode number is zero, or a 63-bit multiple of 2^32. */
  lemma ReadsAsAnonymous(s: string)
    requires IsDec(s)
    ensures InodeWord(s) == 0 <==> Dec(s) % 0x1_0000_0000 == 0 && Dec(s) < TWO63
    ensures Dec(s) < 0x1_0000_0000 ==> InodeWord(s) == Dec(s)
  {
    DecimalLong(s);
    hide StrToL, Dec;
    LowWord(Dec(s));
  }

  lemma DecimalLong(s: string)
    requires IsDec(s)
    ensures StrToL(s) == if Dec(s) < TWO63 then Dec(s) else TWO63 - 1
  {
    AllDigits(s);
    hide Dec, Digits, SkipWhite;
  }

  lemma LowWord(v: nat)
    ensures v < TWO63 ==> (v < 0x1_0000_0000 ==> v % 0x1_0000_0000 == v)
    ensures (TWO63 - 1) % 0x1_0000_0000 == 0xffff_ffff
  {
  }

  // ---- separators ----

  /** The first position of `c`. */
  function IndexOf(s: string, c: char): (i: nat)
    requires c in s
    ensures i < |s| && s[i] == c && c !in s[..i]
  {
    if s[0] == c then 0
    else
      assert c in s[1..];
      assert s[..IndexOf(s[1..], c) + 1] == [s[0]] + s[1..][..IndexOf(s[1..], c)];
      IndexOf(s[1..], c) + 1
  }

  lemma IndexIs(a: string, c: char, b: string)
    requires c !in a
    ensures c in a + [c] + b && IndexOf(a + [c] + b, c) == |a|
  {
    var s := a + [c] + b;
    assert s[|a|] == c;
  }

  /** The text before and after the first `c`; without one the parser runs past the end of the text. */
  function Cut(s: string, c: char): (r: Option<(string, string)>)
    ensures r.Some? ==> |r.value.1| < |s|
  {
    if c in s then Some((s[..IndexOf(s, c)], s[IndexOf(s, c) + 1..])) else None
  }

  /** Looking for the next separator. */
  method FindChar(s: string, c: char) returns (r: Option<(string, string)>)
    ensures r == Cut(s, c)
  {
    var i := 0;
    while i < |s| && s[i] != c
      invariant 0 <= i <= |s| && c !in s[..i]
    {
      i := i + 1;
    }
    if i == |s| {
      assert s[..i] == s;
      return None;
    }
    assert s == s[..i] + [c] + s[i + 1..];
    IndexIs(s[..i], c, s[i + 1..]);
    return Some((s[..i], s[i + 1..]));
  }

  // ---- one line ----

  /** What the range field gives: its two addresses, a parse failure, or a failed assertion. */
  datatype Range = Good(start: nat, end: nat) | Bad | Abort

  /** The range field: hex digits around the first '-'. */
  function ParseRangeField(f: string): Range {
    var d := if '-' in f then IndexOf(f, '-') else |f|;
    if d == 0 then Abort
    else if d > 17 || !IsHex(f[..d]) then Bad
    else if d + 1 >= |f| then Abort
    else if |f| - d - 1 > 17 || !IsHex(f[d + 1..]) then Bad
    else Good(HexVal(f[..d]) % TWO64, HexVal(f[d + 1..]) % TWO64)
  }

  /** The printed form of a range of 64-bit addresses is read back exactly. */
  lemma RangeRoundTrip(start: nat, end: nat)
    requires start < TWO64 && end < TWO64
    ensures ParseRangeField(ToHex(start) + "-" + ToHex(end)) == Good(start, end)
  {
    var a, b := ToHex(start), ToHex(end);
    AddressDigits(start);
    AddressDigits(end);
    hide ToHex, HexVal;
    ReadRange(a, b);
    InWord(start);
    InWord(end);
  }

  lemma InWord(n: nat)
    requires n < TWO64
    ensures n % TWO64 == n
  {
  }

  lemma AddressDigits(n: nat)
    requires n < TWO64
    ensures 1 <= |ToHex(n)| <= 16
  {
    SixteenDigits();
    hide Pow16;
    HexLength(n, 16);
  }

  lemma ReadRange(a: string, b: string)
    requires IsHex(a) && IsHex(b) && 0 < |a| <= 17 && 0 < |b| <= 17
    ensures ParseRangeField(a + "-" + b) == Good(HexVal(a) % TWO64, HexVal(b) % TWO64)
  {
    NoDash(a);
    IndexIs(a, '-', b);
    var f := a + "-" + b;
    assert f[..|a|] == a && f[|a| + 1..] == b;
  }

  lemma NoDash(s: string)
    requires IsHex(s)
    ensures '-' !in s
  {
  }

  /** A field of 17 hex digits is accepted, with its top digit shifted out. */
  lemma SeventeenDigits(a: string, b: string)
    requires IsHex(a) && IsHex(b) && |a| == 17 && 0 < |b| <= 17
    ensures ParseRangeField(a + "-" + b) == Good(HexVal(a[1..]), HexVal(b) % TWO64)
  {
    hide Pow16, HexVal, ParseRangeField, HexDigit;
    ReadRange(a, b);
    TopDigit(a);
    Remainder(HexDigit(a[0]), HexVal(a[1..]));
  }

  lemma TopDigit(a: string)
    requires IsHex(a) && |a| == 17
    ensures HexVal(a) == HexDigit(a[0]) * TWO64 + HexVal(a[1..]) && HexVal(a[1..]) < TWO64
  {
    hide Pow16, HexVal, HexDigit;
    DropTop(a);
    SixteenDigits();
    HexBelow(a[1..]);
    assert Pow16(|a| - 1) == TWO64 && Pow16(|a[1..]|) == TWO64;
  }

  lemma {:induction false} DropTop(a: string)
    requires IsHex(a) && a != []
    ensures HexVal(a) == HexDigit(a[0]) * Pow16(|a| - 1) + HexVal(a[1..])
  {
    if |a| > 1 {
      var b, c := a[..|a| - 1], HexDigit(a[|a| - 1]);
      DropTop(b);
      var p, v := Pow16(|b| - 1), HexVal(b[1..]);
      assert HexVal(a) == 16 * HexVal(b) + c;
      assert HexVal(a[1..]) == 16 * v + c by { assert b[1..] == a[1..][..|a[1..]| - 1]; }
      assert Pow16(|a| - 1) == 16 * p;
      hide HexVal, Pow16, HexDigit;
      Times16(HexDigit(a[0]), p, v, c);
    } else {
      assert a[..0] == [] && a[1..] == [];
    }
  }

  lemma Times16(d: int, p: int, v: int, c: int)
    ensures 16 * (d * p + v) + c == d * (16 * p) + (16 * v + c)
  {
  }

  lemma {:induction false} HexBelow(a: string)
    requires IsHex(a)
    ensures HexVal(a) < Pow16(|a|)
  {
    if a == [] {
    } else {
      HexBelow(a[..|a| - 1]);
    }
  }

  /** The digits of one address: hex, and between 1 and 17 of them. */
  predicate AddressField(a: string) {
    IsHex(a) && 1 <= |a| <= 17
  }

  /** `f` is the range from `a` to `b`. */
  predicate Spells(f: string, a: string, b: string) {
    f == a + "-" + b && AddressField(a) && AddressField(b)
  }

  /** Two addresses are read exactly from a range of two address fields, and a failed assertion comes exactly from a
      field in which the first address, or the second one behind a good first one, has no character at all. */
  lemma RangeExactly(f: string, x: nat, y: nat)
    ensures ParseRangeField(f) == Good(x, y) <==>
      exists a, b :: Spells(f, a, b) && x == HexVal(a) % TWO64 && y == HexVal(b) % TWO64
    ensures ParseRangeField(f) == Abort <==>
      f == [] || f[0] == '-' || AddressField(f) || (f[|f| - 1] == '-' && AddressField(f[..|f| - 1]))
  {
    hide HexVal;
    forall a, b | Spells(f, a, b)
      ensures ParseRangeField(f) == Good(HexVal(a) % TWO64, HexVal(b) % TWO64)
    {
      ReadRange(a, b);
    }
    if ParseRangeField(f).Good? {
      var d := IndexOf(f, '-');
      assert f == f[..d] + "-" + f[d + 1..];
      assert Spells(f, f[..d], f[d + 1..]);
    }
    AbortExactly(f);
  }

  lemma AbortExactly(f: string)
    ensures ParseRangeField(f) == Abort <==>
      f == [] || f[0] == '-' || AddressField(f) || (f[|f| - 1] == '-' && AddressField(f[..|f| - 1]))
  {
    hide HexVal, HexDigit;
    if f == [] {
    } else if f[0] == '-' {
      assert IndexOf(f, '-') == 0;
    } else if '-' !in f {
      assert f[..|f|] == f;
    } else {
      var d := IndexOf(f, '-');
      assert !IsHex(f) by { NoDashIn(f, d); }
      if f[|f| - 1] == '-' && d < |f| - 1 {
        NoDashIn(f[..|f| - 1], d);
        NoDashIn(f[d + 1..], |f| - 2 - d);
      }
    }
  }

  lemma NoDashIn(s: string, i: nat)
    requires i < |s| && s[i] == '-'
    ensures !IsHex(s)
  {
    assert HexDigit('-') < 0;
  }

  /** The range field as parse_mmap_range takes it apart. */
  method ParseRange(range_str: string) returns (r: Range)
    ensures r == ParseRangeField(range_str)
  {
    hide HexVal, HexDigit;
    var end_pos := |range_str|;
    var sp_pos := 0;
    ghost var d := if '-' in range_str then IndexOf(range_str, '-') else |range_str|;
    while sp_pos < end_pos && range_str[sp_pos] != '-'
      invariant 0 <= sp_pos <= d
    {
      sp_pos := sp_pos + 1;
    }
    if sp_pos - 1 < 0 {
      return Abort;
    }
    var code, start := HexToInt(range_str[..sp_pos]);
    if code != 0 {
      return Bad;
    }
    if end_pos - 1 < sp_pos + 1 {
      return Abort;
    }
    var end;
    code, end := HexToInt(range_str[sp_pos + 1..]);
    if code != 0 {
      return Bad;
    }
    r := Good(start, end);
  }

  datatype Attr = Attr(read: bool, write: bool, execute: bool, priv: bool, no_bkpt: bool)

  /** The flags whose letters occur in the permission field. */
  function Flags(f: string): Attr {
    Attr('r' in f, 'w' in f, 'x' in f, 'p' in f, false)
  }

  /** The permission field as parse_mmap_attr reads it. */
  method ParseAttr(attr_str: string) returns (attr: Attr)
    ensures attr == Flags(attr_str)
  {
    attr := Attr(false, false, false, false, false);
    var i := 0;
    while i < |attr_str|
      invariant 0 <= i <= |attr_str| && attr == Flags(attr_str[..i])
    {
      assert attr_str[..i + 1] == attr_str[..i] + [attr_str[i]];
      match attr_str[i] {
        case 'r' => attr := attr.(read := true);
        case 'w' => attr := attr.(write := true);
        case 'x' => attr := attr.(execute := true);
        case 'p' => attr := attr.(priv := true);
        case _ =>
      }
      i := i + 1;
    }
    assert attr_str[..i] == attr_str;
  }

  /** What is left after spaces. */
  function DropSpaces(s: string): (r: string)
    ensures |r| <= |s|
  {
    if s != [] && s[0] == ' ' then DropSpaces(s[1..]) else s
  }

  method SkipSpaces(s: string) returns (r: string)
    ensures r == DropSpaces(s)
  {
    r := s;
    while r != [] && r[0] == ' '
      invariant DropSpaces(r) == DropSpaces(s)
    {
      r := r[1..];
    }
  }

  /** Everything that one line gives. */
  datatype Entry = Entry(range: Range, attr: Attr, inode: nat, file: string)

  /** What reading a line comes to: its entry and the text behind it, a parse failure, a failed assertion, or a read
      past the end of the text. */
  datatype Parsed = Got(e: Entry, rest: string) | Failure | Assertion | Overrun

  /** The inode field behind two fields that are skipped, and what follows the spaces behind it. */
  function InodeField(s: string): (r: Option<(string, string)>)
    ensures r.Some? ==> |r.value.1| < |s|
  {
    var offset := Cut(s, ' ');
    if offset.None? then None
    else
      var dev := Cut(offset.value.1, ' ');
      if dev.None? then None
      else
        var inode := Cut(dev.value.1, ' ');
        if inode.None? then None else Some((inode.value.0, DropSpaces(inode.value.1)))
  }

  /** parse_mmap_inode */
  method ParseInode(s: string) returns (r: Option<(string, string)>)
    ensures r == InodeField(s)
  {
    hide IndexOf;
    var offset := FindChar(s, ' ');
    if offset.None? { return None; }
    var dev := FindChar(offset.value.1, ' ');
    if dev.None? { return None; }
    var inode := FindChar(dev.value.1, ' ');
    if inode.None? { return None; }
    var rest := SkipSpaces(inode.value.1);
    r := Some((inode.value.0, rest));
  }

  /** One line of the text. */
  function ReadLine(s: string): (r: Parsed)
    ensures r.Got? ==> |r.rest| < |s| && r.e.range.Good?
  {
    var range := Cut(s, ' ');
    if range.None? then Overrun
    else
      var ends := ParseRangeField(range.value.0);
      if ends.Bad? then Failure else if ends.Abort? then Assertion
      else
        var perms := Cut(range.value.1, ' ');
        if perms.None? then Overrun
        else
          var inode := InodeField(perms.value.1);
          if inode.None? then Overrun
          else
            var file := Cut(inode.value.1, '\n');
            if file.None? then Overrun
            else Got(Entry(ends, Flags(perms.value.0), InodeWord(inode.value.0), file.value.0), file.value.1)
  }

  /** The body of the loop in object_parse_mmap, up to the end of the line. */
  method ParseLine(s: string) returns (r: Parsed)
    ensures r == ReadLine(s)
  {
    hide IndexOf, ParseRangeField, Flags, InodeWord, InodeField, Cut;
    var range := FindChar(s, ' ');
    if range.None? { return Overrun; }
    var ends := ParseRange(range.value.0);
    if ends.Bad? { return Failure; }
    if ends.Abort? { return Assertion; }
    var perms := FindChar(range.value.1, ' ');
    if perms.None? { return Overrun; }
    var attr := ParseAttr(perms.value.0);
    var inode := ParseInode(perms.value.1);
    if inode.None? { return Overrun; }
    var file := FindChar(inode.value.1, '\n');
    if file.None? { return Overrun; }
    r := Got(Entry(ends, attr, InodeWord(inode.value.0), file.value.0), file.value.1);
  }

  // ---- the object list ----

  /** An entry of the object list. */
  datatype Obj = Obj(start: nat, end: nat, attr: Attr, file: string)

  predicate Listed(objs: seq<Obj>, start: nat, end: nat) {
    exists i :: 0 <= i < |objs| && objs[i].start == start && objs[i].end == end
  }

  /** An entry that describes mapped code of a file. */
  predicate Code(e: Entry) {
    e.range.Good? && e.inode != 0 && e.attr.execute
  }

  /** The object that such an entry describes; `self` is the address of the parser's own code. */
  function ObjOf(e: Entry, self: nat): Obj
    requires Code(e)
  {
    var barred := e.attr.no_bkpt || e.range.start <= self <= e.range.end;
    Obj(e.range.start, e.range.end, e.attr.(no_bkpt := barred), e.file)
  }

  /** How one entry changes the list. */
  function Absorb(objs: seq<Obj>, e: Entry, self: nat): seq<Obj> {
    if Code(e) && !Listed(objs, e.range.start, e.range.end) then objs + [ObjOf(e, self)] else objs
  }

  function AbsorbAll(objs: seq<Obj>, es: seq<Entry>, self: nat): seq<Obj>
    decreases |es|
  {
    if es == [] then objs else AbsorbAll(Absorb(objs, es[0], self), es[1..], self)
  }

  /** How object_parse_mmap ends. */
  datatype Outcome = Done | Failed | Aborted | Overran

  function Ending(p: Parsed): Outcome {
    match p
    case Got(_, _) => Done
    case Failure => Failed
    case Assertion => Aborted
    case Overrun => Overran
  }

  /** The entries read from a text before it ends or reading it fails, and how that ends. */
  function Reads(text: string): (seq<Entry>, Outcome)
    decreases |text|
  {
    if text == [] then ([], Done)
    else
      var p := ReadLine(text);
      if p.Got? then
        var (es, o) := Reads(p.rest);
        ([p.e] + es, o)
      else ([], Ending(p))
  }

  class ObjectList {
    var objects: seq<Obj>

    constructor ()
      ensures objects == []
    {
      objects := [];
    }

    /** Scanning the list for a range. */
    method Contains(start: nat, end: nat) returns (found: bool)
      ensures found == Listed(objects, start, end)
    {
      var i := 0;
      while i < |objects|
        invariant 0 <= i <= |objects|
        invariant forall k :: 0 <= k < i ==> !(objects[k].start == start && objects[k].end == end)
      {
        if objects[i].start == start && objects[i].end == end {
          return true;
        }
        i := i + 1;
      }
      found := false;
    }

    /** What object_parse_mmap does with a line that it has read. */
    method Append(e: Entry, self: nat)
      requires e.range.Good?
      modifies this
      ensures objects == Absorb(old(objects), e, self)
      ensures objects != old(objects) <==>
        && e.attr.execute && e.inode != 0
        && forall i :: 0 <= i < |old(objects)| ==>
             old(objects)[i].start != e.range.start || old(objects)[i].end != e.range.end
      ensures objects != old(objects) ==>
        && |objects| == |old(objects)| + 1 && objects[..|old(objects)|] == old(objects)
        && var o := objects[|old(objects)|];
           && o.start == e.range.start && o.end == e.range.end && o.file == e.file
           && (o.attr.no_bkpt <==> e.attr.no_bkpt || e.range.start <= self <= e.range.end)
           && o.attr == e.attr.(no_bkpt := o.attr.no_bkpt)
    {
      if e.inode == 0 || !e.attr.execute {
        return;
      }
      var known := Contains(e.range.start, e.range.end);
      if known {
        return;
      }
      var attr := e.attr;
      if e.range.start <= self <= e.range.end {
        attr := attr.(no_bkpt := true);
      }
      objects := objects + [Obj(e.range.start, e.range.end, attr, e.file)];
    }

    /** object_parse_mmap, on any text: the entries read are absorbed in order. */
    method ParseMmap(text: string, self: nat) returns (r: Outcome)
      modifies this
      ensures objects == AbsorbAll(old(objects), Reads(text).0, self)
      ensures r == Reads(text).1
    {
      hide ReadLine, Absorb;
      var mmap := text;
      ghost var es := [];
      assert [] + Reads(text).0 == Reads(text).0;
      while mmap != []
        invariant Reads(text) == (es + Reads(mmap).0, Reads(mmap).1)
        invariant objects == AbsorbAll(old(objects), es, self)
        decreases |mmap|
      {
        var p := ParseLine(mmap);
        if !p.Got? {
          assert es + [] == es;
          return Ending(p);
        }
        Append(p.e, self);
        AbsorbNext(old(objects), es, p.e, self);
        assert es + ([p.e] + Reads(p.rest).0) == (es + [p.e]) + Reads(p.rest).0;
        es := es + [p.e];
        mmap := p.rest;
      }
      assert es + [] == es;
      r := Done;
    }
  }

  lemma {:induction false} AbsorbNext(objs: seq<Obj>, es: seq<Entry>, e: Entry, self: nat)
    ensures AbsorbAll(objs, es + [e], self) == Absorb(AbsorbAll(objs, es, self), e, self)
    decreases |es|
  {
    hide Absorb;
    if es != [] {
      assert (es + [e])[1..] == es[1..] + [e];
      AbsorbNext(Absorb(objs, es[0], self), es[1..], e, self);
    } else {
      assert [e][1..] == [];
    }
  }

  // ---- what the list becomes ----

  /** Entry `i` is the first to describe its range, and the range was not listed before. */
  predicate Fresh(objs: seq<Obj>, es: seq<Entry>, i: nat)
    requires i < |es|
  {
    && Code(es[i]) && !Listed(objs, es[i].range.start, es[i].range.end)
    && forall j :: 0 <= j < i ==> !(Code(es[j]) && es[j].range == es[i].range)
  }

  /** The objects of the fresh entries among the first `n`, in their order. */
  ghost function FreshObjs(objs: seq<Obj>, es: seq<Entry>, n: nat, self: nat): seq<Obj>
    requires n <= |es|
  {
    if n == 0 then []
    else FreshObjs(objs, es, n - 1, self) + if Fresh(objs, es, n - 1) then [ObjOf(es[n - 1], self)] else []
  }

  lemma TakeOneMore(es: seq<Entry>, n: nat)
    requires 0 < n <= |es|
    ensures es[..n] == es[..n - 1] + [es[n - 1]]
  {
  }

  /** A range is listed after the first `n` entries iff it was before or one of them describes code there. */
  lemma {:induction false} ListedAfter(objs: seq<Obj>, es: seq<Entry>, n: nat, self: nat, r: Range)
    requires n <= |es| && r.Good?
    ensures Listed(AbsorbAll(objs, es[..n], self), r.start, r.end) <==>
            (Listed(objs, r.start, r.end) || exists j :: 0 <= j < n && Code(es[j]) && es[j].range == r)
  {
    hide Listed;
    if n == 0 {
    } else {
      ListedAfter(objs, es, n - 1, self, r);
      TakeOneMore(es, n);
      AbsorbNext(objs, es[..n - 1], es[n - 1], self);
      AbsorbLists(AbsorbAll(objs, es[..n - 1], self), es[n - 1], self, r);
    }
  }

  lemma AbsorbLists(objs: seq<Obj>, e: Entry, self: nat, r: Range)
    requires r.Good?
    ensures Listed(Absorb(objs, e, self), r.start, r.end) <==>
            (Listed(objs, r.start, r.end) || (Code(e) && e.range == r))
  {
    var after := Absorb(objs, e, self);
    if after != objs {
      assert after[|objs|] == ObjOf(e, self);
      assert forall i :: 0 <= i < |objs| ==> after[i] == objs[i];
    }
  }

  /** Parsing appends, in order, exactly the objects of the executable entries with an inode whose range is new. */
  lemma {:induction false} AppendsExactly(objs: seq<Obj>, es: seq<Entry>, n: nat, self: nat)
    requires n <= |es|
    ensures AbsorbAll(objs, es[..n], self) == objs + FreshObjs(objs, es, n, self)
  {
    hide ObjOf, Listed;
    if n == 0 {
    } else {
      AppendsExactly(objs, es, n - 1, self);
      TakeOneMore(es, n);
      AbsorbNext(objs, es[..n - 1], es[n - 1], self);
      if Code(es[n - 1]) {
        ListedAfter(objs, es, n - 1, self, es[n - 1].range);
      }
    }
  }

  /** Parsing the same text again, whatever it is, adds nothing. */
  lemma {:induction false} ParsingAgain(objs: seq<Obj>, text: string, self: nat)
    ensures var es := Reads(text).0; var once := AbsorbAll(objs, es, self); AbsorbAll(once, es, self) == once
  {
    hide Reads;
    var es := Reads(text).0;
    var once := AbsorbAll(objs, es, self);
    assert es[..|es|] == es;
    AppendsExactly(once, es, |es|, self);
    NothingFresh(objs, es, |es|, self);
  }

  lemma {:induction false} NothingFresh(objs: seq<Obj>, es: seq<Entry>, n: nat, self: nat)
    requires n <= |es|
    ensures FreshObjs(AbsorbAll(objs, es, self), es, n, self) == []
  {
    hide ObjOf, Listed;
    if n == 0 {
    } else {
      NothingFresh(objs, es, n - 1, self);
      if Code(es[n - 1]) {
        assert es[..|es|] == es;
        ListedAfter(objs, es, |es|, self, es[n - 1].range);
      }
    }
  }

  /** No range is listed twice. */
  predicate NoRepeats(objs: seq<Obj>) {
    forall i, j :: 0 <= i < j < |objs| ==> !(objs[i].start == objs[j].start && objs[i].end == objs[j].end)
  }

  /** Whatever the text, the list never holds a range twice. */
  lemma {:induction false} NeverRepeats(objs: seq<Obj>, es: seq<Entry>, self: nat)
    requires NoRepeats(objs)
    ensures NoRepeats(AbsorbAll(objs, es, self))
    decreases |es|
  {
    if es == [] {
    } else {
      NeverRepeats(Absorb(objs, es[0], self), es[1..], self);
    }
  }

  // ---- printed lines ----

  /** A line of /proc/self/maps, field by field. */
  datatype Line = Line(
    range: string, perms: string, offset: string, dev: string, inode: string, pad: nat, file: string)

  predicate Field(f: string) {
    ' ' !in f
  }

  /** The separators are where they belong; the fields may hold anything else. */
  predicate Shaped(l: Line) {
    && Field(l.range) && Field(l.perms) && Field(l.offset) && Field(l.dev) && Field(l.inode) && l.pad >= 1
    && '\n' !in l.file && (l.file == [] || l.file[0] != ' ')
  }

  function Spaces(n: nat): (s: string)
    ensures |s| == n && forall i :: 0 <= i < n ==> s[i] == ' '
  {
    seq(n, _ => ' ')
  }

  function Print(l: Line): string {
    l.range + " " + (l.perms + " " + (l.offset + " " + (l.dev + " " + (l.inode + Spaces(l.pad) + (l.file + "\n")))))
  }

  function PrintAll(ls: seq<Line>): string {
    if ls == [] then [] else Print(ls[0]) + PrintAll(ls[1..])
  }

  function EntryOf(l: Line): Entry {
    Entry(ParseRangeField(l.range), Flags(l.perms), InodeWord(l.inode), l.file)
  }

  lemma CutField(f: string, c: char, s: string)
    requires c !in f
    ensures Cut(f + [c] + s, c) == Some((f, s))
  {
    IndexIs(f, c, s);
    var t := f + [c] + s;
    assert t[..|f|] == f && t[|f| + 1..] == s;
  }

  lemma {:induction false} SpacesDropped(n: nat, s: string)
    requires s != [] && s[0] != ' '
    ensures DropSpaces(Spaces(n) + s) == s
  {
    if n == 0 {
      assert Spaces(0) + s == s;
    } else {
      assert (Spaces(n) + s)[1..] == Spaces(n - 1) + s;
      SpacesDropped(n - 1, s);
    }
  }

  /** What follows the device field. */
  function InodeTail(l: Line, more: string): string {
    l.inode + Spaces(l.pad) + FileTail(l, more)
  }

  /** What follows the spaces behind the inode field. */
  function FileTail(l: Line, more: string): string {
    l.file + "\n" + more
  }

  lemma PadSplit(i: string, n: nat, t: string)
    requires n >= 1
    ensures i + Spaces(n) + t == i + " " + (Spaces(n - 1) + t)
  {
    assert Spaces(n) == " " + Spaces(n - 1);
  }

  /** A printed line and what follows it, field by field. */
  lemma PrintRegroup(l: Line, more: string)
    ensures Print(l) + more == l.range + " " + (l.perms + " " + (l.offset + " " + (l.dev + " " + InodeTail(l, more))))
  {
    var t := l.inode + Spaces(l.pad) + (l.file + "\n");
    assert t + more == InodeTail(l, more);
    hide InodeTail;
    Shift(l.dev, t, more);
    t := l.dev + " " + t;
    Shift(l.offset, t, more);
    t := l.offset + " " + t;
    Shift(l.perms, t, more);
    t := l.perms + " " + t;
    Shift(l.range, t, more);
  }

  lemma Shift(f: string, t: string, more: string)
    ensures (f + " " + t) + more == f + " " + (t + more)
  {
  }

  lemma FileTailStarts(l: Line, more: string)
    requires Shaped(l)
    ensures FileTail(l, more) != [] && FileTail(l, more)[0] != ' '
  {
  }

  lemma InodePrinted(l: Line, more: string)
    requires Shaped(l)
    ensures InodeField(l.offset + " " + (l.dev + " " + InodeTail(l, more))) == Some((l.inode, FileTail(l, more)))
  {
    hide Cut, DropSpaces, Spaces, FileTail;
    var tail := FileTail(l, more);
    FileTailStarts(l, more);
    CutField(l.offset, ' ', l.dev + " " + InodeTail(l, more));
    CutField(l.dev, ' ', InodeTail(l, more));
    PadSplit(l.inode, l.pad, tail);
    CutField(l.inode, ' ', Spaces(l.pad - 1) + tail);
    SpacesDropped(l.pad - 1, tail);
  }

  /** A printed line followed by anything gives exactly its fields and leaves what follows. */
  lemma LinePrinted(l: Line, more: string)
    requires Shaped(l)
    ensures ReadLine(Print(l) + more) ==
            match ParseRangeField(l.range)
            case Good(_, _) => Got(EntryOf(l), more)
            case Bad => Failure
            case Abort => Assertion
  {
    hide Cut, Print, InodeTail, FileTail, ParseRangeField, InodeWord, Flags, InodeField;
    PrintRegroup(l, more);
    var t3 := l.offset + " " + (l.dev + " " + InodeTail(l, more));
    CutField(l.range, ' ', l.perms + " " + t3);
    CutField(l.perms, ' ', t3);
    InodePrinted(l, more);
    FilePrinted(l, more);
  }

  lemma FilePrinted(l: Line, more: string)
    requires Shaped(l)
    ensures Cut(FileTail(l, more), '\n') == Some((l.file, more))
  {
    CutField(l.file, '\n', more);
  }

  /** The number of lines before the first one whose range is malformed. */
  function Readable(ls: seq<Line>): (n: nat)
    ensures n <= |ls|
    ensures forall i :: 0 <= i < n ==> EntryOf(ls[i]).range.Good?
    ensures n < |ls| ==> !EntryOf(ls[n]).range.Good?
  {
    if ls == [] || !EntryOf(ls[0]).range.Good? then 0 else 1 + Readable(ls[1..])
  }

  function EntriesOf(ls: seq<Line>): seq<Entry> {
    if ls == [] then [] else [EntryOf(ls[0])] + EntriesOf(ls[1..])
  }

  /** Reading the printed form of any list of lines gives exactly the entries of the lines before the first
      malformed range, and succeeds exactly if there is none. */
  lemma {:induction false} LinesPrinted(ls: seq<Line>)
    requires forall i :: 0 <= i < |ls| ==> Shaped(ls[i])
    ensures Reads(PrintAll(ls)).0 == EntriesOf(ls[..Readable(ls)])
    ensures var n := Readable(ls);
      Reads(PrintAll(ls)).1 ==
        if n == |ls| then Done else if ParseRangeField(ls[n].range).Bad? then Failed else Aborted
  {
    hide ParseRangeField, InodeWord, Flags, Print, ReadLine, Shaped;
    if ls == [] {
    } else {
      var more := PrintAll(ls[1..]);
      LinePrinted(ls[0], more);
      PrintNotEmpty(ls[0]);
      if EntryOf(ls[0]).range.Good? {
        LinesPrinted(ls[1..]);
        assert ls[..Readable(ls)][1..] == ls[1..][..Readable(ls[1..])];
      }
    }
  }

  lemma PrintNotEmpty(l: Line)
    ensures Print(l) != []
  {
  }

  // ---- what is accepted ----

  /** `s` starts with the printed line `l` and goes on with `more`. */
  predicate StartsWith(s: string, l: Line, more: string) {
    Shaped(l) && s == Print(l) + more
  }

  lemma CutExactly(s: string, c: char)
    ensures Cut(s, c).Some? ==> var (f, more) := Cut(s, c).value; c !in f && s == f + [c] + more
  {
  }

  /** The number of spaces that a text starts with. */
  lemma {:induction false} SpacesCounted(s: string) returns (n: nat)
    ensures s == Spaces(n) + DropSpaces(s) && (DropSpaces(s) == [] || DropSpaces(s)[0] != ' ')
  {
    if s != [] && s[0] == ' ' {
      n := SpacesCounted(s[1..]);
      assert Spaces(n + 1) == [' '] + Spaces(n);
      assert s == [s[0]] + s[1..];
      n := n + 1;
    } else {
      n := 0;
    }
  }

  lemma InodeFieldFound(s: string) returns (offset: string, dev: string, inode: string, pad: nat, tail: string)
    requires InodeField(s).Some?
    ensures Field(offset) && Field(dev) && Field(inode) && pad >= 1 && (tail == [] || tail[0] != ' ')
    ensures s == offset + " " + (dev + " " + (inode + Spaces(pad) + tail)) && InodeField(s).value == (inode, tail)
  {
    hide DropSpaces, Spaces, Cut;
    CutExactly(s, ' ');
    var s1 := Cut(s, ' ').value.1;
    CutExactly(s1, ' ');
    var s2 := Cut(s1, ' ').value.1;
    CutExactly(s2, ' ');
    var s3 := Cut(s2, ' ').value.1;
    var n := SpacesCounted(s3);
    offset, dev, inode := Cut(s, ' ').value.0, Cut(s1, ' ').value.0, Cut(s2, ' ').value.0;
    pad, tail := n + 1, DropSpaces(s3);
    PadSplit(inode, pad, tail);
  }

  /** A line that is read is the printed form of a line. */
  lemma ReadIsPrinted(s: string) returns (l: Line)
    requires ReadLine(s).Got?
    ensures StartsWith(s, l, ReadLine(s).rest) && EntryOf(l) == ReadLine(s).e
  {
    hide Cut, InodeField, ParseRangeField, InodeWord, Flags, Print;
    CutExactly(s, ' ');
    var (range, s1) := Cut(s, ' ').value;
    CutExactly(s1, ' ');
    var (perms, s2) := Cut(s1, ' ').value;
    var offset, dev, inode, pad, tail := InodeFieldFound(s2);
    CutExactly(tail, '\n');
    var (file, more) := Cut(tail, '\n').value;
    l := Line(range, perms, offset, dev, inode, pad, file);
    assert tail == FileTail(l, more);
    PrintRegroup(l, more);
  }

  /** A line is read exactly if the text starts with its printed form and its range is good. */
  lemma LineExactly(s: string, e: Entry, more: string)
    ensures ReadLine(s) == Got(e, more) <==> e.range.Good? && exists l :: StartsWith(s, l, more) && EntryOf(l) == e
  {
    hide ReadLine, Print, ParseRangeField, Shaped;
    forall l | StartsWith(s, l, more) && EntryOf(l) == e && e.range.Good?
      ensures ReadLine(s) == Got(e, more)
    {
      LinePrinted(l, more);
    }
    if ReadLine(s) == Got(e, more) {
      var l := ReadIsPrinted(s);
    }
  }

  /** What a line that is not read comes to: the first field decides, and if its range is good the text ended. */
  lemma NotReadExactly(s: string)
    ensures ReadLine(s).Failure? <==> exists f, more :: Field(f) && s == f + " " + more && ParseRangeField(f).Bad?
    ensures ReadLine(s).Assertion? <==> exists f, more :: Field(f) && s == f + " " + more && ParseRangeField(f).Abort?
  {
    hide ParseRangeField, InodeField, Flags, InodeWord;
    forall f, more | Field(f) && s == f + " " + more
      ensures Cut(s, ' ') == Some((f, more))
    {
      CutField(f, ' ', more);
    }
    CutExactly(s, ' ');
  }

  predicate Acceptable(ls: seq<Line>) {
    forall i :: 0 <= i < |ls| ==> Shaped(ls[i]) && ParseRangeField(ls[i].range).Good?
  }

  /** A text that is parsed with success is the printed form of lines with good ranges. */
  lemma {:induction false} DoneIsPrinted(text: string) returns (ls: seq<Line>)
    requires Reads(text).1.Done?
    ensures Acceptable(ls) && text == PrintAll(ls) && Reads(text).0 == EntriesOf(ls)
    decreases |text|
  {
    hide Print, ParseRangeField, Shaped, ReadLine, InodeWord, Flags;
    if text == [] {
      ls := [];
    } else {
      var l := ReadIsPrinted(text);
      var more := DoneIsPrinted(ReadLine(text).rest);
      ls := [l] + more;
      assert ls[1..] == more;
    }
  }

  /** A text is parsed with success exactly if it is the printed form of some lines with good ranges, and then the
      entries read are theirs. */
  lemma DoneExactly(text: string, es: seq<Entry>)
    ensures Reads(text) == (es, Done) <==> exists ls :: Acceptable(ls) && text == PrintAll(ls) && es == EntriesOf(ls)
  {
    hide Reads, PrintAll, Shaped, ParseRangeField;
    forall ls | Acceptable(ls) && text == PrintAll(ls) && es == EntriesOf(ls)
      ensures Reads(text) == (es, Done)
    {
      LinesPrinted(ls);
      assert Readable(ls) == |ls|;
      assert ls[..|ls|] == ls;
    }
    if Reads(text) == (es, Done) {
      var ls := DoneIsPrinted(text);
    }
  }

  // ---- mappings ----

  /** A mapping as the kernel prints it; `rest` holds the fields behind the permissions. */
  datatype Mapping = Mapping(start: nat, end: nat, r: bool, w: bool, x: bool, p: bool, rest: Line)

  /** Its addresses are 64-bit numbers, and the other fields have the separators where they belong. */
  predicate Printable(m: Mapping) {
    && m.start < TWO64 && m.end < TWO64
    && Field(m.rest.offset) && Field(m.rest.dev) && Field(m.rest.inode) && m.rest.pad >= 1
    && '\n' !in m.rest.file && (m.rest.file == [] || m.rest.file[0] != ' ')
  }

  function Perms(m: Mapping): string {
    [if m.r then 'r' else '-', if m.w then 'w' else '-', if m.x then 'x' else '-', if m.p then 'p' else 's']
  }

  function LineOf(m: Mapping): Line {
    m.rest.(range := ToHex(m.start) + "-" + ToHex(m.end), perms := Perms(m))
  }

  /** What should be read: exactly these addresses and permissions. */
  function EntryFor(m: Mapping): Entry {
    Entry(Good(m.start, m.end), Attr(m.r, m.w, m.x, m.p, false), InodeWord(m.rest.inode), m.rest.file)
  }

  function LinesOf(ms: seq<Mapping>): seq<Line> {
    seq(|ms|, i requires 0 <= i < |ms| => LineOf(ms[i]))
  }

  function EntriesFor(ms: seq<Mapping>): seq<Entry> {
    seq(|ms|, i requires 0 <= i < |ms| => EntryFor(ms[i]))
  }

  lemma PermsFlags(m: Mapping)
    ensures Flags(Perms(m)) == Attr(m.r, m.w, m.x, m.p, false) && Field(Perms(m))
  {
    var s := Perms(m);
    assert s[0] in s && s[1] in s && s[2] in s && s[3] in s;
  }

  lemma LineReads(m: Mapping)
    requires Printable(m)
    ensures Shaped(LineOf(m)) && EntryOf(LineOf(m)) == EntryFor(m)
  {
    RangeRoundTrip(m.start, m.end);
    PermsFlags(m);
    HexHasNoSpace(ToHex(m.start));
    HexHasNoSpace(ToHex(m.end));
    hide ToHex, ParseRangeField, InodeWord, Flags, Perms, IsHex;
  }

  lemma HexHasNoSpace(s: string)
    requires IsHex(s)
    ensures ' ' !in s
  {
  }

  lemma {:induction false} EntriesAre(ls: seq<Line>)
    ensures |EntriesOf(ls)| == |ls| && forall i :: 0 <= i < |ls| ==> EntriesOf(ls)[i] == EntryOf(ls[i])
  {
    if ls == [] {
    } else {
      EntriesAre(ls[1..]);
    }
  }

  /** The printed form of any mappings is read in full and exactly. */
  lemma MappingsRead(ms: seq<Mapping>)
    requires forall i :: 0 <= i < |ms| ==> Printable(ms[i])
    ensures Reads(PrintAll(LinesOf(ms))) == (EntriesFor(ms), Done)
  {
    var ls := LinesOf(ms);
    forall i | 0 <= i < |ls|
      ensures Shaped(ls[i]) && EntryOf(ls[i]) == EntryFor(ms[i])
    {
      LineReads(ms[i]);
    }
    hide Reads, PrintAll, EntryOf, Shaped, LineOf;
    LinesPrinted(ls);
    assert Readable(ls) == |ls|;
    assert ls[..|ls|] == ls;
    EntriesAre(ls);
    assert EntriesOf(ls) == EntriesFor(ms);
  }

  /** The inode number of a mapping is not read as zero. */
  predicate FromFile(m: Mapping) {
    if IsDec(m.rest.inode) then Dec(m.rest.inode) % 0x1_0000_0000 != 0 || Dec(m.rest.inode) >= TWO63
    else InodeWord(m.rest.inode) != 0
  }

  predicate SameRange(m: Mapping, n: Mapping) {
    m.start == n.start && m.end == n.end
  }

  /** Mapping `i` is executable, comes from a file, and its range was neither listed nor that of an earlier such
      mapping. */
  predicate NewCode(objs: seq<Obj>, ms: seq<Mapping>, i: nat)
    requires i < |ms|
  {
    && ms[i].x && FromFile(ms[i])
    && (forall k :: 0 <= k < |objs| ==> objs[k].start != ms[i].start || objs[k].end != ms[i].end)
    && forall j :: 0 <= j < i ==> !(ms[j].x && FromFile(ms[j]) && SameRange(ms[j], ms[i]))
  }

  /** What should be listed for a mapping. */
  function ObjectOf(m: Mapping, self: nat): Obj {
    Obj(m.start, m.end, Attr(m.r, m.w, m.x, m.p, m.start <= self <= m.end), m.rest.file)
  }

  /** The objects of the new code among the first `n` mappings, in their order. */
  ghost function NewObjects(objs: seq<Obj>, ms: seq<Mapping>, n: nat, self: nat): (os: seq<Obj>)
    requires n <= |ms|
    ensures forall o :: o in os <==> exists i :: 0 <= i < n && NewCode(objs, ms, i) && o == ObjectOf(ms[i], self)
  {
    if n == 0 then []
    else NewObjects(objs, ms, n - 1, self) + if NewCode(objs, ms, n - 1) then [ObjectOf(ms[n - 1], self)] else []
  }

  lemma CodeOf(m: Mapping, self: nat)
    ensures Code(EntryFor(m)) <==> m.x && FromFile(m)
    ensures Code(EntryFor(m)) ==> ObjOf(EntryFor(m), self) == ObjectOf(m, self)
  {
    hide InodeWord, Dec;
    if IsDec(m.rest.inode) {
      ReadsAsAnonymous(m.rest.inode);
    }
  }

  lemma FreshOf(objs: seq<Obj>, ms: seq<Mapping>, i: nat, self: nat)
    requires i < |ms|
    ensures Fresh(objs, EntriesFor(ms), i) <==> NewCode(objs, ms, i)
  {
    hide Code, FromFile;
    var es := EntriesFor(ms);
    CodeOf(ms[i], self);
    forall j | 0 <= j < i
      ensures Code(es[j]) <==> ms[j].x && FromFile(ms[j])
      ensures es[j].range == es[i].range <==> SameRange(ms[j], ms[i])
    {
      CodeOf(ms[j], self);
    }
  }

  lemma {:induction false} FreshAreNew(objs: seq<Obj>, ms: seq<Mapping>, n: nat, self: nat)
    requires n <= |ms|
    ensures FreshObjs(objs, EntriesFor(ms), n, self) == NewObjects(objs, ms, n, self)
  {
    hide Fresh, NewCode, ObjOf, ObjectOf, Code, EntryFor;
    if n == 0 {
    } else {
      FreshAreNew(objs, ms, n - 1, self);
      FreshOf(objs, ms, n - 1, self);
      if Fresh(objs, EntriesFor(ms), n - 1) {
        assert Code(EntriesFor(ms)[n - 1]) by { IsCode(objs, EntriesFor(ms), n - 1); }
        CodeOf(ms[n - 1], self);
      }
    }
  }

  lemma IsCode(objs: seq<Obj>, es: seq<Entry>, i: nat)
    requires i < |es| && Fresh(objs, es, i)
    ensures Code(es[i])
  {
  }

  /** Parsing the printed form of any mappings succeeds and appends to the list, in order, exactly the objects of those
      that are executable, come from a file and have a range that was neither listed nor met before, with the printed
      addresses and permissions and barred from breakpoints exactly if they hold the parser's own code. */
  method LoadMappings(list: ObjectList, text: string, self: nat, ghost ms: seq<Mapping>) returns (r: Outcome)
    requires text == PrintAll(LinesOf(ms)) && forall i :: 0 <= i < |ms| ==> Printable(ms[i])
    modifies list
    ensures r.Done?
    ensures list.objects == old(list.objects) + NewObjects(old(list.objects), ms, |ms|, self)
    ensures NoRepeats(old(list.objects)) ==> NoRepeats(list.objects)
  {
    hide Reads, PrintAll, FreshObjs, NewObjects, AbsorbAll, LinesOf;
    MappingsRead(ms);
    ghost var objs, es := list.objects, EntriesFor(ms);
    r := list.ParseMmap(text, self);
    assert es[..|es|] == es;
    AppendsExactly(objs, es, |es|, self);
    FreshAreNew(objs, ms, |ms|, self);
    if NoRepeats(objs) {
      NeverRepeats(objs, es, self);
    }
  }

  /** The object of an executable mapping with an inode has exactly the printed addresses and permissions, and is
      barred from breakpoints exactly if it holds the parser's own code. */
  lemma ExactObject(m: Mapping, self: nat)
    requires Printable(m) && m.x && InodeWord(m.rest.inode) != 0
    ensures var e := EntryOf(LineOf(m));
      && Code(e)
      && ObjOf(e, self) == Obj(m.start, m.end, Attr(m.r, m.w, true, m.p, m.start <= self <= m.end), m.rest.file)
  {
    LineReads(m);
    hide LineOf, InodeWord, EntryOf;
  }
}
