/**
 Hierarchical deterministic wallet paths: parsing a user's text and printing the canonical form.
 Hardened components are those from 2^31 up and are written with a trailing apostrophe.
 */
module DerivationPaths {
  import opened Basics

  const HARDENED: nat := 0x8000_0000
  const MAX_U32: nat := 0xFFFF_FFFF

  type U32 = n: nat | n <= MAX_U32

  const DEFAULT_ROOT: seq<U32> := [HARDENED + 44, HARDENED + 20200101, HARDENED, 0]

  datatype ParseError = EmptyPath | AmbiguousPath | InvalidComponent | OutOfRange

  datatype Result<+T> = Ok(value: T) | Err(error: ParseError)

  // Strings.

  predicate IsSpace(c: char) {
    c in {'\t', '\n', '\U{0B}', '\U{0C}', '\r', ' ', '\U{85}', '\U{A0}', '\U{1680}', '\U{2028}', '\U{2029}',
          '\U{202F}', '\U{205F}', '\U{3000}'}
    || '\U{2000}' <= c <= '\U{200A}'
  }

  function TrimLeft(s: string): string {
    if s != "" && IsSpace(s[0]) then TrimLeft(s[1..]) else s
  }

  function TrimRight(s: string): string {
    if s != "" && IsSpace(s[|s| - 1]) then TrimRight(s[..|s| - 1]) else s
  }

  function TrimSpace(s: string): string {
    TrimRight(TrimLeft(s))
  }

  /** The pieces between the separators; always at least one. */
  function Split(s: string, sep: char): (parts: seq<string>)
    ensures |parts| > 0
  {
    if s == "" then [""]
    else
      var rest := Split(s[1..], sep);
      if s[0] == sep then [""] + rest else [[s[0]] + rest[0]] + rest[1..]
  }

  // Integers, in the base the text announces.

  function DigitValue(c: char): nat {
    if '0' <= c <= '9' then c as nat - '0' as nat
    else if 'a' <= c <= 'z' then c as nat - 'a' as nat + 10
    else if 'A' <= c <= 'Z' then c as nat - 'A' as nat + 10
    else 37
  }

  /** What came before the next character: nothing countable, a digit or prefix, or a separator. */
  datatype Prev = Other | Digit | Separator

  /** Reads all of `s` as digits of a base; a separator may only stand after a digit, and not at the end. */
  function ScanDigits(s: string, base: nat, prev: Prev, any: bool, acc: nat): Option<nat> {
    if s == "" then
      if prev.Separator? || !any then None else Some(acc)
    else if s[0] == '_' then
      if prev.Digit? then ScanDigits(s[1..], base, Separator, any, acc) else None
    else if DigitValue(s[0]) >= base then None
    else ScanDigits(s[1..], base, Digit, true, acc * base + DigitValue(s[0]))
  }

  function ScanNat(s: string): Option<nat> {
    if s == "0" then Some(0)
    else if s != "" && s[0] == '0' then
      if s[1] in {'b', 'B'} then ScanDigits(s[2..], 2, Digit, false, 0)
      else if s[1] in {'o', 'O'} then ScanDigits(s[2..], 8, Digit, false, 0)
      else if s[1] in {'x', 'X'} then ScanDigits(s[2..], 16, Digit, false, 0)
      else ScanDigits(s[1..], 8, Digit, false, 0)
    else ScanDigits(s, 10, Other, false, 0)
  }

  function ScanInt(s: string): Option<int> {
    if s == "" then None
    else
      var magnitude := ScanNat(if s[0] in {'+', '-'} then s[1..] else s);
      if magnitude.None? then None
      else
        var m: int := magnitude.value;
        Some(if s[0] == '-' then -m else m)
  }

  // Paths.

  function ParseComponent(text: string): Result<U32> {
    var trimmed := TrimSpace(text);
    var hardened := trimmed != "" && trimmed[|trimmed| - 1] == '\'';
    var offset := if hardened then HARDENED else 0;
    var digits := if hardened then TrimSpace(trimmed[..|trimmed| - 1]) else trimmed;
    var n := ScanInt(digits);
    if n.None? then Err(InvalidComponent)
    else if n.value < 0 || n.value > MAX_U32 - offset then Err(OutOfRange)
    else Ok(offset + n.value)
  }

  /** The components in order, or the first error. */
  function ParseComponents(texts: seq<string>): Result<seq<U32>> {
    if texts == [] then Ok([])
    else
      var front := ParseComponents(texts[..|texts| - 1]);
      if front.Err? then front
      else
        var last := ParseComponent(texts[|texts| - 1]);
        if last.Err? then Err(last.error) else Ok(front.value + [last.value])
  }

  /** Absolute paths start with "m/"; anything else hangs off the default root. */
  function Parse(path: string): Result<seq<U32>> {
    var components := Split(path, '/');
    var first := TrimSpace(components[0]);
    if first == "" then Err(AmbiguousPath)
    else if first == "m" then
      if |components| == 1 then Err(EmptyPath) else ParseComponents(components[1..])
    else
      var rest := ParseComponents(components);
      if rest.Err? then rest else Ok(DEFAULT_ROOT + rest.value)
  }

  function PrintNat(n: nat): (s: string)
    ensures s != ""
  {
    var digit := ('0' as nat + n % 10) as char;
    if n < 10 then [digit] else PrintNat(n / 10) + [digit]
  }

  function PrintComponent(c: U32): string {
    if c >= HARDENED then PrintNat(c - HARDENED) + "'" else PrintNat(c)
  }

  function Print(path: seq<U32>): string {
    if path == [] then "m" else Print(path[..|path| - 1]) + "/" + PrintComponent(path[|path| - 1])
  }

  /** Appends the parsed components to a prefix, one by one, stopping at the first error. */
  method AppendComponents(prefix: seq<U32>, components: seq<string>) returns (r: Result<seq<U32>>)
    ensures r == match ParseComponents(components) case Ok(rest) => Ok(prefix + rest) case Err(e) => Err(e)
  {
    var result := prefix;
    for i := 0 to |components|
      invariant ParseComponents(components[..i]).Ok? && result == prefix + ParseComponents(components[..i]).value
    {
      assert components[..i + 1][..i] == components[..i];
      var component := ParseComponent(components[i]);
      if component.Err? {
        ErrorPropagates(components, i + 1);
        return Err(component.error);
      }
      result := result + [component.value];
    }
    assert components[..|components|] == components;
    r := Ok(result);
  }

  method ParseDerivationPath(path: string) returns (r: Result<seq<U32>>)
    ensures r == Parse(path)
  {
    var components := Split(path, '/');
    var first := TrimSpace(components[0]);
    if first == "" {
      r := Err(AmbiguousPath);
    } else if first == "m" {
      if |components| == 1 {
        r := Err(EmptyPath);
      } else {
        r := AppendComponents([], components[1..]);
        assert forall rest: seq<U32> {:trigger Ok(rest)} :: [] + rest == rest;
      }
    } else {
      r := AppendComponents(DEFAULT_ROOT, components);
    }
  }

  lemma {:induction false} ErrorPropagates(texts: seq<string>, n: nat)
    requires n <= |texts| && ParseComponents(texts[..n]).Err?
    ensures ParseComponents(texts) == ParseComponents(texts[..n])
    decreases |texts| - n
  {
    if n == |texts| {
      assert texts[..n] == texts;
    } else {
      assert texts[..n + 1][..n] == texts[..n];
      ErrorPropagates(texts, n + 1);
    }
  }

  method PrintDerivationPath(path: seq<U32>) returns (result: string)
    ensures result == Print(path)
  {
    result := "m";
    for i := 0 to |path|
      invariant result == Print(path[..i])
    {
      assert path[..i + 1][..i] == path[..i];
      var component: nat, hardened := path[i], false;
      if component >= HARDENED {
        component, hardened := component - HARDENED, true;
      }
      result := result + "/" + PrintNat(component);
      if hardened {
        result := result + "'";
      }
    }
    assert path[..|path|] == path;
  }

  // The round trip.

  ghost predicate Digits(s: string) {
    forall i | 0 <= i < |s| :: '0' <= s[i] <= '9'
  }

  lemma {:induction false} PrintNatIsDigits(n: nat)
    ensures Digits(PrintNat(n)) && (n > 0 ==> PrintNat(n)[0] != '0')
  {
    if n >= 10 {
      PrintNatIsDigits(n / 10);
    }
  }

  /** Scanning a printed number accumulates exactly that number. */
  lemma {:induction false} ScanPrinted(n: nat, rest: string, prev: Prev)
    ensures ScanDigits(PrintNat(n) + rest, 10, prev, false, 0) == ScanDigits(rest, 10, Digit, true, n)
    decreases n
  {
    var digit := ('0' as nat + n % 10) as char;
    if n < 10 {
      assert ([digit] + rest)[1..] == rest;
    } else {
      ScanPrinted(n / 10, [digit] + rest, prev);
      assert PrintNat(n) + rest == PrintNat(n / 10) + ([digit] + rest);
      assert ([digit] + rest)[1..] == rest;
    }
  }

  lemma ScanIntPrinted(n: nat)
    ensures ScanInt(PrintNat(n)) == Some(n)
  {
    PrintNatIsDigits(n);
    if n == 0 {
      assert PrintNat(0) == "0";
    } else {
      ScanPrinted(n, "", Other);
      assert PrintNat(n) + "" == PrintNat(n);
    }
  }

  lemma TrimKeeps(s: string)
    requires s != "" && !IsSpace(s[0]) && !IsSpace(s[|s| - 1])
    ensures TrimSpace(s) == s
  {
  }

  lemma ComponentRoundTrip(c: U32)
    ensures ParseComponent(PrintComponent(c)) == Ok(c)
  {
    var n := if c >= HARDENED then c - HARDENED else c;
    var digits, text := PrintNat(n), PrintComponent(c);
    PrintNatIsDigits(n);
    ScanIntPrinted(n);
    TrimKeeps(digits);
    TrimKeeps(text);
    if c >= HARDENED {
      assert text[..|text| - 1] == digits;
    }
  }

  lemma {:induction false} SplitAppend(a: string, b: string, sep: char)
    requires sep !in b
    ensures Split(a + [sep] + b, sep) == Split(a, sep) + [b]
    decreases |a|
  {
    if a == "" {
      SplitNone(b, sep);
      assert ("" + [sep] + b)[1..] == b;
    } else {
      var s := a + [sep] + b;
      SplitAppend(a[1..], b, sep);
      assert s[1..] == a[1..] + [sep] + b;
    }
  }

  lemma {:induction false} SplitNone(b: string, sep: char)
    requires sep !in b
    ensures Split(b, sep) == [b]
    decreases |b|
  {
    if b != "" {
      SplitNone(b[1..], sep);
      assert [b[0]] + b[1..] == b;
    }
  }

  lemma ComponentHasNoSeparator(c: U32)
    ensures '/' !in PrintComponent(c)
  {
    PrintNatIsDigits(if c >= HARDENED then c - HARDENED else c);
  }

  lemma {:induction false} SplitPrinted(path: seq<U32>)
    ensures Split(Print(path), '/') == ["m"] + PrintedComponents(path)
    decreases |path|
  {
    if path == [] {
      SplitNone("m", '/');
    } else {
      var front, c := path[..|path| - 1], path[|path| - 1];
      SplitPrinted(front);
      ComponentHasNoSeparator(c);
      SplitAppend(Print(front), PrintComponent(c), '/');
    }
  }

  ghost function PrintedComponents(path: seq<U32>): (r: seq<string>)
    ensures |r| == |path|
  {
    if path == [] then [] else PrintedComponents(path[..|path| - 1]) + [PrintComponent(path[|path| - 1])]
  }

  /** Each text is read as the component at its place. */
  ghost predicate ReadAs(texts: seq<string>, path: seq<U32>) {
    |texts| == |path| && forall i {:trigger Reads(texts[i], path[i])} | 0 <= i < |path| :: Reads(texts[i], path[i])
  }

  ghost predicate Reads(text: string, c: U32) {
    ParseComponent(text) == Ok(c)
  }

  lemma ParseAll(texts: seq<string>, path: seq<U32>)
    requires ReadAs(texts, path)
    ensures ParseComponents(texts) == Ok(path)
  {
    ParseFirst(texts, path, |path|);
    assert texts[..|path|] == texts && path[..|path|] == path;
  }

  lemma {:induction false} ParseFirst(texts: seq<string>, path: seq<U32>, k: nat)
    requires ReadAs(texts, path) && k <= |path|
    ensures ParseComponents(texts[..k]) == Ok(path[..k])
  {
    if k == 0 {
      assert texts[..k] == [] && path[..k] == [];
    } else {
      ParseFirst(texts, path, k - 1);
      ParseNext(texts, path, k - 1);
    }
  }

  lemma ParseNext(texts: seq<string>, path: seq<U32>, k: nat)
    requires ReadAs(texts, path) && k < |path| && ParseComponents(texts[..k]) == Ok(path[..k])
    ensures ParseComponents(texts[..k + 1]) == Ok(path[..k + 1])
  {
    assert Reads(texts[k], path[k]);
    OneLonger(texts, k);
    OneLonger(path, k);
    ParseLast(texts[..k + 1], path[..k], path[k]);
  }

  lemma OneLonger<T>(s: seq<T>, k: nat)
    requires k < |s|
    ensures |s[..k + 1]| == k + 1 && s[..k + 1][..k] == s[..k] && s[..k + 1] == s[..k] + [s[k]]
  {
  }

  lemma ParseLast(texts: seq<string>, front: seq<U32>, last: U32)
    requires texts != [] && ParseComponents(texts[..|texts| - 1]) == Ok(front) && Reads(texts[|texts| - 1], last)
    ensures ParseComponents(texts) == Ok(front + [last])
  {
  }

  lemma {:induction false} PrintedAt(path: seq<U32>, i: nat)
    requires i < |path|
    ensures PrintedComponents(path)[i] == PrintComponent(path[i])
    decreases |path|
  {
    if i < |path| - 1 {
      PrintedAt(path[..|path| - 1], i);
    }
  }

  lemma PrintedReads(path: seq<U32>)
    ensures ReadAs(PrintedComponents(path), path)
  {
    forall i | 0 <= i < |path| ensures Reads(PrintedComponents(path)[i], path[i]) {
      PrintedAt(path, i);
      ComponentRoundTrip(path[i]);
    }
  }

  lemma ComponentsRoundTrip(path: seq<U32>)
    ensures ParseComponents(PrintedComponents(path)) == Ok(path)
  {
    PrintedReads(path);
    ParseAll(PrintedComponents(path), path);
  }

  /** Parsing the printed form gives the path back exactly when the path is not empty. */
  lemma RoundTrip(path: seq<U32>)
    ensures Parse(Print(path)) == Ok(path) <==> path != []
  {
    SplitPrinted(path);
    ComponentsRoundTrip(path);
    TrimKeeps("m");
    assert (["m"] + PrintedComponents(path))[1..] == PrintedComponents(path);
  }

  /** Printing what was parsed is canonical: it parses to the same path, so doing it again changes nothing. */
  lemma PrintAfterParse(text: string)
    requires Parse(text).Ok?
    ensures Parse(Print(Parse(text).value)) == Parse(text)
    ensures Print(Parse(Print(Parse(text).value)).value) == Print(Parse(text).value)
  {
    NonEmptyResult(Split(text, '/'));
    NonEmptyResult(Split(text, '/')[1..]);
    RoundTrip(Parse(text).value);
  }

  lemma NonEmptyResult(texts: seq<string>)
    ensures ParseComponents(texts).Ok? ==> |ParseComponents(texts).value| == |texts|
  {
    if texts != [] {
      NonEmptyResult(texts[..|texts| - 1]);
    }
  }

  /** Distinct paths print differently. */
  lemma PrintInjective(p: seq<U32>, q: seq<U32>)
    requires Print(p) == Print(q)
    ensures p == q
  {
    SplitPrinted(p);
    SplitPrinted(q);
    ComponentsRoundTrip(p);
    ComponentsRoundTrip(q);
    assert PrintedComponents(p) == Split(Print(p), '/')[1..] == PrintedComponents(q);
  }

  // Relative paths.

  /** The printed components with separators between them. */
  ghost function Joined(path: seq<U32>): string
    requires path != []
  {
    var last := PrintComponent(path[|path| - 1]);
    if |path| == 1 then last else Joined(path[..|path| - 1]) + "/" + last
  }

  lemma {:induction false} PrintIsJoined(path: seq<U32>)
    requires path != []
    ensures Print(path) == "m/" + Joined(path)
    decreases |path|
  {
    var front, last := path[..|path| - 1], PrintComponent(path[|path| - 1]);
    if |path| == 1 {
      assert Print(front) == "m";
      assert "m" + "/" + last == "m/" + last;
    } else {
      PrintIsJoined(front);
      assert "m/" + Joined(front) + "/" + last == "m/" + (Joined(front) + "/" + last);
    }
  }

  lemma {:induction false} SplitJoined(path: seq<U32>)
    requires path != []
    ensures Split(Joined(path), '/') == PrintedComponents(path)
    decreases |path|
  {
    var front, c := path[..|path| - 1], path[|path| - 1];
    ComponentHasNoSeparator(c);
    if |path| == 1 {
      SplitNone(PrintComponent(c), '/');
      assert PrintedComponents(front) == [];
    } else {
      SplitJoined(front);
      SplitAppend(Joined(front), PrintComponent(c), '/');
    }
  }

  lemma ComponentStandsAlone(c: U32)
    ensures TrimSpace(PrintComponent(c)) == PrintComponent(c) && PrintComponent(c) !in {"", "m"}
  {
    PrintNatIsDigits(if c >= HARDENED then c - HARDENED else c);
    TrimKeeps(PrintComponent(c));
    assert PrintComponent(c)[0] != 'm';
  }

  /** Without the leading "m/" a path hangs off m/44'/20200101'/0'/0. */
  lemma RelativePath(path: seq<U32>)
    requires path != []
    ensures Print(path) == "m/" + Joined(path)
    ensures Parse(Joined(path)) == Ok([0x8000_0000 + 44, 0x8000_0000 + 20_200_101, 0x8000_0000, 0] + path)
  {
    PrintIsJoined(path);
    SplitJoined(path);
    ComponentsRoundTrip(path);
    PrintedAt(path, 0);
    ComponentStandsAlone(path[0]);
  }

  // Ranges and bases.

  /** Plain numbers go up to 2^32 - 1 and hardened ones up to 2^31 - 1; larger ones are refused. */
  lemma ComponentRange(n: nat)
    ensures ParseComponent(PrintNat(n)) == if n < 0x1_0000_0000 then Ok(n) else Err(OutOfRange)
    ensures ParseComponent(PrintNat(n) + "'") == if n < 0x8000_0000 then Ok(0x8000_0000 + n) else Err(OutOfRange)
  {
    var digits, text := PrintNat(n), PrintNat(n) + "'";
    PrintNatIsDigits(n);
    ScanIntPrinted(n);
    TrimKeeps(digits);
    TrimKeeps(text);
    assert text[..|text| - 1] == digits;
  }

  function DigitChar(d: nat): char
    requires d < 16
  {
    if d < 10 then ('0' as nat + d) as char else ('a' as nat + d - 10) as char
  }

  ghost predicate DigitsOf(ds: seq<nat>, base: nat) {
    forall i | 0 <= i < |ds| :: ds[i] < base
  }

  /** The number that digits stand for, the last one counting once. */
  ghost function ValueOf(ds: seq<nat>, base: nat): nat {
    if ds == [] then 0 else ValueOf(ds[..|ds| - 1], base) * base + ds[|ds| - 1]
  }

  ghost function Text(ds: seq<nat>): string
    requires DigitsOf(ds, 16)
  {
    if ds == [] then "" else [DigitChar(ds[0])] + Text(ds[1..])
  }

  /** Reading on from a number. */
  ghost function ReadOn(acc: nat, ds: seq<nat>, base: nat): nat
    decreases |ds|
  {
    if ds == [] then acc else ReadOn(acc * base + ds[0], ds[1..], base)
  }

  lemma {:induction false} ReadOneMore(acc: nat, ds: seq<nat>, d: nat, base: nat)
    ensures ReadOn(acc, ds + [d], base) == ReadOn(acc, ds, base) * base + d
    decreases |ds|
  {
    if ds == [] {
      assert [d][1..] == [];
      assert ReadOn(acc, [d], base) == ReadOn(acc * base + d, [], base);
    } else {
      ReadOneMore(acc * base + ds[0], ds[1..], d, base);
      assert (ds + [d])[1..] == ds[1..] + [d];
    }
  }

  lemma {:induction false} ReadIsValue(ds: seq<nat>, base: nat)
    ensures ReadOn(0, ds, base) == ValueOf(ds, base)
    decreases |ds|
  {
    if ds != [] {
      var front, d := ds[..|ds| - 1], ds[|ds| - 1];
      ReadIsValue(front, base);
      ReadOneMore(0, front, d, base);
      assert front + [d] == ds;
    }
  }

  lemma {:induction false} ScanText(ds: seq<nat>, base: nat, prev: Prev, any: bool, acc: nat)
    requires base <= 16 && DigitsOf(ds, base) && DigitsOf(ds, 16) && !prev.Separator?
    ensures ScanDigits(Text(ds), base, prev, any, acc) ==
            if ds == [] && !any then None else Some(ReadOn(acc, ds, base))
    decreases |ds|
  {
    if ds != [] {
      ScanText(ds[1..], base, Digit, true, acc * base + ds[0]);
      assert Text(ds)[1..] == Text(ds[1..]);
      assert DigitValue(Text(ds)[0]) == ds[0];
    }
  }

  /** Digits after what announces their base read as the number they stand for. */
  lemma ScanAnnounced(ds: seq<nat>, base: nat, prefix: string)
    requires (prefix, base) in {("0b", 2), ("0B", 2), ("0o", 8), ("0O", 8), ("0x", 16), ("0X", 16)}
    requires ds != [] && DigitsOf(ds, base) && DigitsOf(ds, 16)
    ensures ScanInt(prefix + Text(ds)) == Some(ValueOf(ds, base))
  {
    ScanText(ds, base, Digit, false, 0);
    ReadIsValue(ds, base);
    assert (prefix + Text(ds))[2..] == Text(ds);
  }

  /** A leading zero announces octal digits. */
  lemma ScanOctal(ds: seq<nat>)
    requires ds != [] && DigitsOf(ds, 8) && DigitsOf(ds, 16)
    ensures ScanInt("0" + Text(ds)) == Some(ValueOf(ds, 8))
  {
    ScanText(ds, 8, Digit, false, 0);
    ReadIsValue(ds, 8);
    assert ("0" + Text(ds))[1..] == Text(ds);
  }

  /** Other digits are decimal. */
  lemma ScanDecimal(ds: seq<nat>)
    requires ds != [] && ds[0] != 0 && DigitsOf(ds, 10) && DigitsOf(ds, 16)
    ensures ScanInt(Text(ds)) == Some(ValueOf(ds, 10)) && ScanInt("-" + Text(ds)) == Some(0 - ValueOf(ds, 10))
  {
    ScanText(ds, 10, Other, false, 0);
    ReadIsValue(ds, 10);
    assert Text(ds)[0] == DigitChar(ds[0]);
    assert ("-" + Text(ds))[1..] == Text(ds);
  }

  /** An underscore between digits is skipped. */
  lemma {:induction false} ScanSeparated(ds: seq<nat>, es: seq<nat>, base: nat, any: bool, acc: nat)
    requires base <= 16 && DigitsOf(ds, base) && DigitsOf(es, base) && DigitsOf(ds, 16) && DigitsOf(es, 16)
    requires es != []
    ensures ScanDigits(Text(ds) + "_" + Text(es), base, Digit, any, acc) == Some(ReadOn(acc, ds + es, base))
    decreases |ds|
  {
    if ds == [] {
      assert Text(ds) + "_" + Text(es) == "_" + Text(es);
      ScanUnderscore(Text(es), base, any, acc);
      ScanFirst(es, base, Separator, any, acc);
      assert ds + es == es;
    } else {
      var next := acc * base + ds[0];
      ScanSeparated(ds[1..], es, base, true, next);
      SeparatedStep(ds, es, base, any, acc, next);
    }
  }

  lemma SeparatedStep(ds: seq<nat>, es: seq<nat>, base: nat, any: bool, acc: nat, next: nat)
    requires base <= 16 && DigitsOf(ds, base) && DigitsOf(ds, 16) && DigitsOf(es, 16) && ds != []
    requires next == acc * base + ds[0]
    ensures ScanDigits(Text(ds) + "_" + Text(es), base, Digit, any, acc) ==
            ScanDigits(Text(ds[1..]) + "_" + Text(es), base, Digit, true, next)
    ensures ReadOn(acc, ds + es, base) == ReadOn(next, ds[1..] + es, base)
  {
    var rest := Text(ds[1..]) + "_" + Text(es);
    assert Text(ds) + "_" + Text(es) == [DigitChar(ds[0])] + rest;
    ScanOneDigit(ds[0], base, rest, any, acc);
    ReadFirst(acc, ds, es, base);
  }

  lemma ReadFirst(acc: nat, ds: seq<nat>, es: seq<nat>, base: nat)
    requires ds != []
    ensures ReadOn(acc, ds + es, base) == ReadOn(acc * base + ds[0], ds[1..] + es, base)
  {
    assert (ds + es)[1..] == ds[1..] + es;
  }

  lemma ScanUnderscore(rest: string, base: nat, any: bool, acc: nat)
    ensures ScanDigits("_" + rest, base, Digit, any, acc) == ScanDigits(rest, base, Separator, any, acc)
  {
    assert ("_" + rest)[1..] == rest;
  }

  lemma ScanOneDigit(d: nat, base: nat, rest: string, any: bool, acc: nat)
    requires d < base <= 16
    ensures ScanDigits([DigitChar(d)] + rest, base, Digit, any, acc) ==
            ScanDigits(rest, base, Digit, true, acc * base + d)
  {
    assert ([DigitChar(d)] + rest)[1..] == rest;
    assert DigitValue(DigitChar(d)) == d;
  }

  lemma ScanFirst(es: seq<nat>, base: nat, prev: Prev, any: bool, acc: nat)
    requires base <= 16 && DigitsOf(es, base) && DigitsOf(es, 16) && es != []
    ensures ScanDigits(Text(es), base, prev, any, acc) == Some(ReadOn(acc, es, base))
  {
    ScanText(es[1..], base, Digit, true, acc * base + es[0]);
    assert Text(es)[0] == DigitChar(es[0]) && Text(es)[1..] == Text(es[1..]);
  }

  ghost predicate Blank(s: string) {
    forall i | 0 <= i < |s| :: s[i] in {' ', '\t', '\n', '\r'}
  }

  lemma {:induction false} TrimLeftBlank(a: string, s: string)
    requires Blank(a) && s != "" && !IsSpace(s[0])
    ensures TrimLeft(a + s) == s
    decreases |a|
  {
    if a == "" {
      assert a + s == s;
    } else {
      TrimLeftBlank(a[1..], s);
      assert (a + s)[1..] == a[1..] + s;
    }
  }

  lemma {:induction false} TrimRightBlank(s: string, b: string)
    requires Blank(b) && s != "" && !IsSpace(s[|s| - 1])
    ensures TrimRight(s + b) == s
    decreases |b|
  {
    if b == "" {
      assert s + b == s;
    } else {
      TrimRightBlank(s, b[..|b| - 1]);
      assert (s + b)[..|s + b| - 1] == s + b[..|b| - 1];
    }
  }

  /** Blanks around a component do not matter. */
  lemma BlanksIgnored(a: string, c: U32, b: string)
    requires Blank(a) && Blank(b)
    ensures ParseComponent(a + PrintComponent(c) + b) == Ok(c)
  {
    var text := PrintComponent(c);
    PrintNatIsDigits(if c >= HARDENED then c - HARDENED else c);
    TrimLeftBlank(a, text + b);
    assert a + text + b == a + (text + b);
    TrimRightBlank(text, b);
    ComponentStandsAlone(c);
    ComponentRoundTrip(c);
  }

  // Errors.

  /** A path that is empty or starts with a separator is ambiguous, and "m" alone is empty. */
  lemma BadStarts(rest: string)
    ensures Parse("") == Err(AmbiguousPath) && Parse("/" + rest) == Err(AmbiguousPath) && Parse("m") == Err(EmptyPath)
  {
    assert ("/" + rest)[0] == '/';
    SplitNone("m", '/');
    TrimKeeps("m");
  }
}
