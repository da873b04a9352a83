/** Parsing and printing of hierarchical derivation paths (accounts/hd.go). A component is a 32-bit index; the upper
    half of the range is hardened and printed with an apostrophe (section "Extended keys" of BIP-32). */
module DerivationPaths {
  import opened Collections

  const HARDENED := 0x8000_0000
  const MAX_INDEX := 0xffff_ffff

  type Index = i: int | 0 <= i <= MAX_INDEX

  const DEFAULT_ROOT: seq<Index> := [HARDENED + 44, HARDENED + 60, HARDENED, 0]

  datatype PathError = EmptyPath | AmbiguousPath | InvalidComponent(text: string) | OutOfRange(value: int, max: nat)

  datatype Result<+T> = Ok(value: T) | Failed(error: PathError)

  // ----- text -----

  predicate IsSpace(c: char) {
    || '\t' <= c <= '\r' || c == ' ' || c == '\U{85}' || c == '\U{A0}'
    || c == '\U{1680}' || '\U{2000}' <= c <= '\U{200A}'
    || c == '\U{2028}' || c == '\U{2029}' || c == '\U{202F}' || c == '\U{205F}' || c == '\U{3000}'
  }

  function TrimSpace(s: string): string
    decreases |s|
  {
    if |s| > 0 && IsSpace(s[0]) then TrimSpace(s[1..])
    else if |s| > 0 && IsSpace(s[|s| - 1]) then TrimSpace(s[..|s| - 1])
    else s
  }

  function Split(s: string): (parts: seq<string>)
    ensures |parts| > 0
  {
    if s == "" then [""]
    else
      var rest := Split(s[1..]);
      if s[0] == '/' then [""] + rest else [[s[0]] + rest[0]] + rest[1..]
  }

  // ----- integers with an optional sign and base prefix, as math/big reads them for base zero -----

  function DigitValue(c: char): nat {
    if '0' <= c <= '9' then c as int - '0' as int
    else if 'a' <= c <= 'z' then c as int - 'a' as int + 10
    else if 'A' <= c <= 'Z' then c as int - 'A' as int + 10
    else 63
  }

  /** The value of the digits, single underscores allowed after a digit or prefix and before a digit. */
  function Scan(s: string, base: nat, value: nat, afterDigit: bool, some: bool): Option<nat> {
    if s == "" then (if afterDigit && some then Some(value) else None)
    else if s[0] == '_' then (if afterDigit then Scan(s[1..], base, value, false, some) else None)
    else if DigitValue(s[0]) < base then Scan(s[1..], base, value * base + DigitValue(s[0]), true, true)
    else None
  }

  function ScanUnsigned(s: string): Option<nat> {
    if |s| > 1 && s[0] == '0' then
      if s[1] in "bB" then Scan(s[2..], 2, 0, true, false)
      else if s[1] in "oO" then Scan(s[2..], 8, 0, true, false)
      else if s[1] in "xX" then Scan(s[2..], 16, 0, true, false)
      else Scan(s[1..], 8, 0, true, false)
    else Scan(s, 10, 0, false, false)
  }

  function SetString(s: string): Option<int> {
    if |s| > 0 && s[0] == '-' then
      var n := ScanUnsigned(s[1..]);
      if n.None? then None else Some(-(n.value as int))
    else
      var n := ScanUnsigned(if |s| > 0 && s[0] == '+' then s[1..] else s);
      if n.None? then None else Some(n.value as int)
  }

  // ----- parsing -----

  predicate HasApostrophe(s: string) {
    |s| > 0 && s[|s| - 1] == '\''
  }

  function ParseComponent(text: string): Result<Index> {
    var trimmed := TrimSpace(text);
    var offset := if HasApostrophe(trimmed) then HARDENED else 0;
    var digits := if HasApostrophe(trimmed) then TrimSpace(trimmed[..|trimmed| - 1]) else trimmed;
    match SetString(digits)
    case None => Failed(InvalidComponent(digits))
    case Some(n) =>
      if n < 0 || n > MAX_INDEX - offset then Failed(OutOfRange(n, MAX_INDEX - offset)) else Ok(offset + n)
  }

  /** All components in order, or the first failure. */
  function ParseAll(texts: seq<string>): Result<seq<Index>> {
    if texts == [] then Ok([])
    else
      match ParseComponent(texts[0])
      case Failed(e) => Failed(e)
      case Ok(i) =>
        match ParseAll(texts[1..])
        case Failed(e) => Failed(e)
        case Ok(rest) => Ok([i] + rest)
  }

  function Parse(path: string): Result<seq<Index>> {
    var parts := Split(path);
    var first := TrimSpace(parts[0]);
    if first == "" then Failed(AmbiguousPath)
    else if first == "m" then (if |parts| == 1 then Failed(EmptyPath) else ParseAll(parts[1..]))
    else
      match ParseAll(parts)
      case Failed(e) => Failed(e)
      case Ok(rest) => Ok(DEFAULT_ROOT + rest)
  }

  method ParseDerivationPath(path: string) returns (r: Result<seq<Index>>)
    ensures r == Parse(path)
  {
    hide TrimSpace, Split, SetString;
    var result: seq<Index> := [];
    var components := Split(path);
    if TrimSpace(components[0]) == "" {
      return Failed(AmbiguousPath);
    } else if TrimSpace(components[0]) == "m" {
      components := components[1..];
    } else {
      result := DEFAULT_ROOT;
    }
    if |components| == 0 {
      return Failed(EmptyPath);
    }
    ghost var root := result;
    assert components[0..] == components;
    for k := 0 to |components|
      invariant Prefixed(root, ParseAll(components)) == Prefixed(result, ParseAll(components[k..]))
    {
      ParseAllStep(result, components[k..]);
      var component := TrimSpace(components[k]);
      var value := 0;
      if HasApostrophe(component) {
        value := HARDENED;
        component := TrimSpace(component[..|component| - 1]);
      }
      var bigval := SetString(component);
      if bigval.None? {
        return Failed(InvalidComponent(component));
      }
      var max := MAX_INDEX - value;
      if bigval.value < 0 || bigval.value > max {
        return Failed(OutOfRange(bigval.value, max));
      }
      value := value + bigval.value;
      result := result + [value];
    }
    assert result + [] == result;
    assert ParseAll(components).Ok? ==> [] + ParseAll(components).value == ParseAll(components).value;
    return Ok(result);
  }

  ghost function Prefixed(front: seq<Index>, rest: Result<seq<Index>>): Result<seq<Index>> {
    match rest
    case Failed(e) => Failed(e)
    case Ok(s) => Ok(front + s)
  }

  lemma {:induction false} ParseAllStep(front: seq<Index>, texts: seq<string>)
    requires texts != []
    ensures Prefixed(front, ParseAll(texts)) ==
            match ParseComponent(texts[0])
            case Failed(e) => Failed(e)
            case Ok(i) => Prefixed(front + [i], ParseAll(texts[1..]))
  {
    hide ParseComponent;
    if ParseComponent(texts[0]).Ok? && ParseAll(texts[1..]).Ok? {
      var i, rest := ParseComponent(texts[0]).value, ParseAll(texts[1..]).value;
      assert front + ([i] + rest) == front + [i] + rest;
    }
  }

  // ----- printing -----

  function Decimal(n: nat): (s: string)
    ensures |s| > 0 && forall i :: 0 <= i < |s| ==> '0' <= s[i] <= '9'
    ensures s[0] == '0' ==> |s| == 1
  {
    if n < 10 then [('0' as int + n) as char] else Decimal(n / 10) + [('0' as int + n % 10) as char]
  }

  function PrintComponent(i: Index): string {
    if i >= HARDENED then Decimal(i - HARDENED) + "'" else Decimal(i)
  }

  function PrintAll(path: seq<Index>): string {
    if path == [] then "" else "/" + PrintComponent(path[0]) + PrintAll(path[1..])
  }

  function Print(path: seq<Index>): string {
    "m" + PrintAll(path)
  }

  method String(path: seq<Index>) returns (result: string)
    ensures result == Print(path)
  {
    hide Decimal, PrintAll;
    result := "m";
    assert path[0..] == path;
    for k := 0 to |path|
      invariant result + PrintAll(path[k..]) == Print(path)
    {
      PrintAllStep(result, path[k..]);
      assert path[k..][1..] == path[k + 1..];
      var component: int := path[k];
      var hardened := false;
      if component >= HARDENED {
        component := component - HARDENED;
        hardened := true;
      }
      result := result + "/" + Decimal(component);
      if hardened {
        result := result + "'";
      }
    }
    PrintNone(result, path[|path|..]);
  }

  lemma {:induction false} PrintNone(front: string, path: seq<Index>)
    requires path == []
    ensures front + PrintAll(path) == front
  {
  }

  lemma {:induction false} PrintAllStep(front: string, path: seq<Index>)
    requires path != []
    ensures front + PrintAll(path) == front + "/" + PrintComponent(path[0]) + PrintAll(path[1..])
  {
    hide PrintComponent;
  }

  // ----- the round trip -----

  lemma {:induction false} ScanDecimal(n: nat, rest: string, afterDigit: bool, some: bool)
    ensures Scan(Decimal(n) + rest, 10, 0, afterDigit, some) == Scan(rest, 10, n, true, true)
  {
    var last := [('0' as int + n % 10) as char];
    assert (last + rest)[1..] == rest;
    if n >= 10 {
      ScanDecimal(n / 10, last + rest, afterDigit, some);
      assert Decimal(n) + rest == Decimal(n / 10) + (last + rest);
    }
  }

  lemma {:induction false} DecimalRoundTrip(n: nat)
    ensures SetString(Decimal(n)) == Some(n)
  {
    ScanDecimal(n, "", false, false);
    assert Decimal(n) + "" == Decimal(n);
  }

  lemma {:induction false} NothingToTrim(s: string)
    requires |s| > 0 && !IsSpace(s[0]) && !IsSpace(s[|s| - 1])
    ensures TrimSpace(s) == s
  {
  }

  lemma {:induction false} ComponentRoundTrip(i: Index)
    ensures ParseComponent(PrintComponent(i)) == Ok(i)
  {
    hide SetString, Decimal, TrimSpace;
    var n := if i >= HARDENED then i - HARDENED else i;
    var digits := Decimal(n);
    DecimalRoundTrip(n);
    NothingToTrim(digits);
    if i >= HARDENED {
      NothingToTrim(digits + "'");
      assert (digits + "'")[..|digits|] == digits;
    }
  }

  lemma {:induction false} SplitAt(head: string, tail: string)
    requires '/' !in head
    ensures Split(head + "/" + tail) == [head] + Split(tail) && Split(head) == [head]
  {
    if head == "" {
      assert head + "/" + tail == "/" + tail;
    } else {
      SplitAt(head[1..], tail);
      assert (head + "/" + tail)[1..] == head[1..] + "/" + tail;
      assert [head[0]] + head[1..] == head;
      assert ([head[1..]] + Split(tail))[1..] == Split(tail);
    }
  }

  /** Splitting printed components recovers their texts, which parse back to the path. */
  lemma {:induction false} PrintedParses(head: string, path: seq<Index>)
    requires '/' !in head
    ensures Split(head + PrintAll(path))[0] == head && ParseAll(Split(head + PrintAll(path))[1..]) == Ok(path)
    decreases |path|
  {
    hide Decimal, Split, ParseComponent, PrintComponent;
    if path == [] {
      SplitAt(head, "");
      assert head + PrintAll(path) == head;
    } else {
      var text := PrintComponent(path[0]);
      PrintedHasNoSlash(path[0]);
      ComponentRoundTrip(path[0]);
      PrintedParses(text, path[1..]);
      var rest := text + PrintAll(path[1..]);
      SplitAt(head, rest);
      PrintAllStep(head, path);
      assert head + PrintAll(path) == head + "/" + rest;
      assert ([head] + Split(rest))[1..] == Split(rest);
      assert [path[0]] + path[1..] == path;
    }
  }

  lemma {:induction false} PrintedHasNoSlash(i: Index)
    ensures '/' !in PrintComponent(i)
  {
  }

  /** Parsing the printed form of a path returns the path; only the empty path, printed as "m", is rejected. */
  lemma {:induction false} PathRoundTrip(path: seq<Index>)
    ensures Parse(Print(path)) == if path == [] then Failed(EmptyPath) else Ok(path)
  {
    PrintedParses("m", path);
    assert TrimSpace("m") == "m";
  }

  lemma {:induction false} ParseAllLength(texts: seq<string>)
    ensures ParseAll(texts).Ok? ==> |ParseAll(texts).value| == |texts|
  {
    if texts != [] {
      ParseAllLength(texts[1..]);
    }
  }

  /** Whatever spelling a path was parsed from, its printed form parses to it again. */
  lemma {:induction false} PrintIsCanonical(text: string)
    requires Parse(text).Ok?
    ensures Parse(Print(Parse(text).value)) == Parse(text)
  {
    ParseAllLength(Split(text));
    ParseAllLength(Split(text)[1..]);
    PathRoundTrip(Parse(text).value);
  }

  // ----- relative paths, other spellings, failures -----

  /** Without the leading "m/" a printed path is relative to the default root m/44'/60'/0'/0. */
  lemma {:induction false} RelativeRoundTrip(path: seq<Index>)
    requires path != []
    ensures Parse(Print(path)[2..]) == Ok([0x8000_002c, 0x8000_003c, 0x8000_0000, 0] + path)
  {
    hide Decimal, Split, ParseComponent, PrintComponent, TrimSpace;
    var text, rest := PrintComponent(path[0]), path[1..];
    PrintAllStep("m", path);
    assert Print(path) == "m/" + (text + PrintAll(rest));
    PrintedHasNoSlash(path[0]);
    PrintedParses(text, rest);
    ComponentRoundTrip(path[0]);
    PrintedStarts(path[0]);
    assert [path[0]] + rest == path;
  }

  lemma {:induction false} PrintedStarts(i: Index)
    ensures TrimSpace(PrintComponent(i)) == PrintComponent(i) && PrintComponent(i) != "" && PrintComponent(i) != "m"
  {
    hide TrimSpace;
    NothingToTrim(PrintComponent(i));
  }

  /** The digits of a number in a base of up to sixteen. */
  function Numeral(n: nat, base: nat): (s: string)
    requires 2 <= base <= 16
    ensures |s| > 0
  {
    var digit := ["0123456789abcdef"[n % base]];
    if n < base then digit else Numeral(n / base, base) + digit
  }

  lemma {:induction false} ScanDigit(d: nat, base: nat, value: nat, rest: string, some: bool)
    requires d < base <= 16
    ensures Scan(["0123456789abcdef"[d]] + rest, base, value, true, some) ==
            Scan(rest, base, value * base + d, true, true)
  {
    assert (["0123456789abcdef"[d]] + rest)[1..] == rest;
  }

  lemma {:induction false} LastDigit(n: nat, base: nat)
    requires base >= 2
    ensures n % base < base && n / base * base + n % base == n && (n < base ==> n % base == n)
    ensures n >= base ==> n / base < n
  {
  }

  lemma {:induction false} ScanNumeral(n: nat, base: nat, rest: string, some: bool)
    requires 2 <= base <= 16
    ensures Scan(Numeral(n, base) + rest, base, 0, true, some) == Scan(rest, base, n, true, true)
    decreases n
  {
    hide Scan;
    LastDigit(n, base);
    var d := n % base;
    var digit := ["0123456789abcdef"[d]];
    if n < base {
      ScanDigit(d, base, 0, rest, some);
    } else {
      ScanNumeral(n / base, base, digit + rest, some);
      ScanDigit(d, base, n / base, rest, true);
      assert Numeral(n, base) + rest == Numeral(n / base, base) + (digit + rest);
    }
  }

  /** A number is read in the base that its prefix names. */
  lemma {:induction false} PrefixedRoundTrip(n: nat)
    ensures SetString("0x" + Numeral(n, 16)) == SetString("0X" + Numeral(n, 16)) == Some(n)
    ensures SetString("0o" + Numeral(n, 8)) == SetString("0O" + Numeral(n, 8)) == Some(n)
    ensures SetString("0b" + Numeral(n, 2)) == SetString("0B" + Numeral(n, 2)) == Some(n)
    ensures SetString("0" + Numeral(n, 8)) == Some(n)
  {
    hide Scan;
    ReadsPrefixed("0x", n, 16);
    ReadsPrefixed("0X", n, 16);
    ReadsPrefixed("0o", n, 8);
    ReadsPrefixed("0O", n, 8);
    ReadsPrefixed("0b", n, 2);
    ReadsPrefixed("0B", n, 2);
    ReadsPrefixed("0", n, 8);
    OctalStarts(n);
  }

  lemma {:induction false} ReadsPrefixed(prefix: string, n: nat, base: nat)
    requires 2 <= base <= 16
    ensures (prefix + Numeral(n, base))[|prefix|..] == Numeral(n, base)
    ensures Scan(Numeral(n, base), base, 0, true, false) == Some(n)
  {
    ScanNumeral(n, base, "", false);
    assert Numeral(n, base) + "" == Numeral(n, base);
  }

  lemma {:induction false} OctalStarts(n: nat)
    ensures '0' <= Numeral(n, 8)[0] <= '7'
  {
    if n >= 8 {
      OctalStarts(n / 8);
    }
  }

  /** A decimal component is taken up to the largest index of its kind, and refused beyond it or below zero. */
  lemma {:induction false} ComponentRange(n: nat)
    ensures ParseComponent(Decimal(n)) == if n <= 0xffff_ffff then Ok(n) else Failed(OutOfRange(n, 0xffff_ffff))
    ensures ParseComponent(Decimal(n) + "'") ==
            if n <= 0x7fff_ffff then Ok(0x8000_0000 + n) else Failed(OutOfRange(n, 0x7fff_ffff))
    ensures n > 0 ==> ParseComponent("-" + Decimal(n)) == Failed(OutOfRange(-(n as int), 0xffff_ffff))
  {
    hide ScanUnsigned, TrimSpace;
    var digits := Decimal(n);
    DecimalRoundTrip(n);
    NothingToTrim(digits);
    NothingToTrim(digits + "'");
    assert (digits + "'")[..|digits|] == digits;
    NothingToTrim("-" + digits);
    assert ("-" + digits)[1..] == digits;
  }

  /** White space around a text is ignored. */
  lemma {:induction false} TrimIgnores(s: string, c: char)
    requires IsSpace(c)
    ensures TrimSpace([c] + s) == TrimSpace(s) == TrimSpace(s + [c])
    decreases |s|
  {
    assert ([c] + s)[1..] == s;
    assert (s + [c])[..|s|] == s;
    if |s| > 0 && IsSpace(s[0]) {
      TrimIgnores(s[1..], c);
      assert (s + [c])[1..] == s[1..] + [c];
    }
  }

  lemma {:induction false} SpaceAround(text: string, c: char)
    requires IsSpace(c)
    ensures ParseComponent([c] + text) == ParseComponent(text) == ParseComponent(text + [c])
  {
    hide TrimSpace, SetString;
    TrimIgnores(text, c);
  }

  /** Components parse to their values, all of them, or to the failure of the first one that has any. */
  lemma {:induction false} FirstFailureReported(texts: seq<string>)
    ensures match ParseAll(texts)
            case Ok(path) =>
              |path| == |texts| && forall i :: 0 <= i < |texts| ==> ParseComponent(texts[i]) == Ok(path[i])
            case Failed(e) =>
              exists k :: && 0 <= k < |texts| && ParseComponent(texts[k]) == Failed(e)
                          && forall i :: 0 <= i < k ==> ParseComponent(texts[i]).Ok?
  {
    hide ParseComponent;
    if texts != [] && ParseComponent(texts[0]).Ok? {
      var rest := texts[1..];
      FirstFailureReported(rest);
      match ParseAll(rest)
      case Ok(path) =>
        assert forall i :: 1 <= i < |texts| ==> texts[i] == rest[i - 1];
      case Failed(e) =>
        var k :| && 0 <= k < |rest| && ParseComponent(rest[k]) == Failed(e)
                 && forall i :: 0 <= i < k ==> ParseComponent(rest[i]).Ok?;
        assert texts[k + 1] == rest[k];
        assert forall i :: 1 <= i < k + 1 ==> texts[i] == rest[i - 1];
    }
  }

  /** A path that starts with a slash, or with nothing but white space before one, is ambiguous. */
  lemma {:induction false} LeadingSlash(blank: string, tail: string)
    requires '/' !in blank && forall i :: 0 <= i < |blank| ==> IsSpace(blank[i])
    ensures Parse(blank + "/" + tail) == Parse(blank) == Failed(AmbiguousPath)
  {
    hide TrimSpace, Split;
    SplitAt(blank, tail);
    BlankTrims(blank);
  }

  lemma {:induction false} BlankTrims(blank: string)
    requires forall i :: 0 <= i < |blank| ==> IsSpace(blank[i])
    ensures TrimSpace(blank) == ""
  {
    if blank != "" {
      BlankTrims(blank[1..]);
    }
  }
}
