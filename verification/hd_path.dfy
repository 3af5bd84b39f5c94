/** Derivation paths of hierarchical deterministic wallets, in the notation of BIP-32: parsing what
    a user writes and printing the canonical form. Integer literals are read by a parameter. */
module DerivationPaths {
  import opened Options

  type Uint32 = n: nat | n <= MAX_UINT32
  const MAX_UINT32: nat := 0xFFFF_FFFF

  /** Added to the components written with a quote. */
  const HARDENED: nat := 0x8000_0000

  type Path = seq<Uint32>

  /** m/44'/60'/0'/0 */
  const DEFAULT_ROOT: Path := [HARDENED + 44, HARDENED + 60, HARDENED, 0]

  datatype ParseError = EmptyPath | AmbiguousPath | InvalidComponent | OutOfRange | OutOfHardenedRange

  datatype Result<T> = Ok(value: T) | Err(error: ParseError)

  // ----- Splitting at slashes -----

  function Split(s: string): (parts: seq<string>)
    ensures |parts| >= 1
  {
    if |s| == 0 then [""]
    else
      var parts, last := Split(s[..|s| - 1]), s[|s| - 1];
      if last == '/' then parts + [""] else Extend(parts, last)
  }

  /** Appends a character to the last part. */
  function Extend(parts: seq<string>, c: char): seq<string>
    requires |parts| >= 1
  {
    parts[..|parts| - 1] + [parts[|parts| - 1] + [c]]
  }

  function Join(parts: seq<string>): string
    requires |parts| >= 1
  {
    if |parts| == 1 then parts[0] else Join(parts[..|parts| - 1]) + "/" + parts[|parts| - 1]
  }

  lemma {:induction false} JoinLast(parts: seq<string>, c: char)
    requires |parts| >= 1
    ensures Join(Extend(parts, c)) == Join(parts) + [c]
  {
    var longer := Extend(parts, c);
    if |parts| > 1 {
      assert longer[..|longer| - 1] == parts[..|parts| - 1];
      assert Join(longer) == Join(parts[..|parts| - 1]) + "/" + (parts[|parts| - 1] + [c]);
    }
  }

  /** Splitting loses nothing, and no part holds a slash. */
  lemma {:induction false} SplitJoins(s: string)
    ensures Join(Split(s)) == s
    ensures forall i :: 0 <= i < |Split(s)| ==> '/' !in Split(s)[i]
  {
    if |s| > 0 {
      var front, last := s[..|s| - 1], s[|s| - 1];
      SplitJoins(front);
      assert s == front + [last];
      if last == '/' {
        assert (Split(front) + [""])[..|Split(front)|] == Split(front);
      } else {
        JoinLast(Split(front), last);
      }
    }
  }

  lemma SplitSnoc(s: string, c: char)
    ensures Split(s + [c]) == if c == '/' then Split(s) + [""] else Extend(Split(s), c)
  {
    assert (s + [c])[..|s|] == s;
  }

  /** A slash separates the parts before it from those after it. */
  lemma {:induction false} SplitConcat(a: string, b: string)
    ensures Split(a + "/" + b) == Split(a) + Split(b)
  {
    hide Split;
    if |b| == 0 {
      SplitOne("");
      SplitSnoc(a, '/');
      assert a + "/" + b == a + ['/'];
    } else {
      var front, last := b[..|b| - 1], b[|b| - 1];
      SplitConcat(a, front);
      assert a + "/" + b == (a + "/" + front) + [last];
      assert b == front + [last];
      SplitSnoc(a + "/" + front, last);
      SplitSnoc(front, last);
      if last == '/' {
        assert Split(a) + Split(front) + [""] == Split(a) + (Split(front) + [""]);
      } else {
        ExtendRight(Split(a), Split(front), last);
      }
    }
  }

  lemma ExtendRight(a: seq<string>, b: seq<string>, c: char)
    requires |b| >= 1
    ensures Extend(a + b, c) == a + Extend(b, c)
  {
  }

  lemma {:induction false} SplitOne(s: string)
    requires '/' !in s
    ensures Split(s) == [s]
  {
    if |s| > 0 {
      SplitOne(s[..|s| - 1]);
      assert s == s[..|s| - 1] + [s[|s| - 1]];
    }
  }

  // ----- White space -----

  predicate IsSpace(c: char) {
    var code := c as int;
    || 9 <= code <= 13 || code == 0x20 || code == 0x85 || code == 0xA0 || code == 0x1680
    || 0x2000 <= code <= 0x200A || code == 0x2028 || code == 0x2029 || code == 0x202F || code == 0x205F || code == 0x3000
  }

  function TrimLeft(s: string): string {
    if |s| > 0 && IsSpace(s[0]) then TrimLeft(s[1..]) else s
  }

  function TrimRight(s: string): string {
    if |s| > 0 && IsSpace(s[|s| - 1]) then TrimRight(s[..|s| - 1]) else s
  }

  function TrimSpace(s: string): string {
    TrimRight(TrimLeft(s))
  }

  ghost predicate Blank(s: string) {
    forall i :: 0 <= i < |s| ==> IsSpace(s[i])
  }

  lemma {:induction false} TrimLeftPadded(pad: string, s: string)
    requires Blank(pad)
    ensures TrimLeft(pad + s) == TrimLeft(s)
  {
    if |pad| > 0 {
      assert (pad + s)[1..] == pad[1..] + s;
      TrimLeftPadded(pad[1..], s);
    } else {
      assert pad + s == s;
    }
  }

  lemma {:induction false} TrimRightPadded(s: string, pad: string)
    requires Blank(pad)
    ensures TrimRight(s + pad) == TrimRight(s)
  {
    if |pad| > 0 {
      assert (s + pad)[..|s + pad| - 1] == s + pad[..|pad| - 1];
      TrimRightPadded(s, pad[..|pad| - 1]);
    } else {
      assert s + pad == s;
    }
  }

  lemma {:induction false} TrimLeftBefore(s: string, pad: string)
    requires Blank(pad)
    ensures TrimLeft(s + pad) == (if Blank(s) then "" else TrimLeft(s) + pad)
  {
    if |s| == 0 {
      TrimLeftPadded(pad, "");
      assert s + pad == pad + "";
    } else if IsSpace(s[0]) {
      assert (s + pad)[1..] == s[1..] + pad;
      TrimLeftBefore(s[1..], pad);
      assert Blank(s) <==> Blank(s[1..]);
    }
  }

  lemma TrimBlank(s: string)
    requires Blank(s)
    ensures TrimSpace(s) == ""
  {
    TrimLeftPadded(s, "");
    assert s + "" == s;
  }

  /** White space around a string makes no difference. */
  lemma TrimPadded(left: string, s: string, right: string)
    requires Blank(left) && Blank(right)
    ensures TrimSpace(left + s + right) == TrimSpace(s)
  {
    assert left + s + right == left + (s + right);
    TrimLeftPadded(left, s + right);
    TrimLeftBefore(s, right);
    if Blank(s) {
      TrimBlank(s);
    } else {
      TrimRightPadded(TrimLeft(s), right);
    }
  }

  // ----- Components -----

  predicate IsDigit(c: char) { '0' <= c <= '9' }

  function Digit(d: nat): (c: char)
    requires d < 10
    ensures IsDigit(c)
  {
    "0123456789"[d]
  }

  function Decimal(n: nat): (s: string)
    ensures |s| >= 1 && forall i :: 0 <= i < |s| ==> IsDigit(s[i])
  {
    if n < 10 then [Digit(n)] else Decimal(n / 10) + [Digit(n % 10)]
  }

  /** Reads an integer literal in any of the notations the language has. */
  type Scanner = string -> Option<int>

  /** The scanner reads what the decimal printer writes. */
  ghost predicate ReadsDecimals(scan: Scanner) {
    forall n: nat :: scan(Decimal(n)) == Some(n)
  }

  /** A scanner of plain decimals. */
  function ScanDecimal(s: string): Option<int> {
    if |s| == 0 || !IsDigit(s[|s| - 1]) then None
    else
      var digit := s[|s| - 1] as int - '0' as int;
      if |s| == 1 then Some(digit)
      else
        var front := ScanDecimal(s[..|s| - 1]);
        if front.None? then None else Some(10 * front.value + digit)
  }

  lemma {:induction false} ScansDecimal(n: nat)
    ensures ScanDecimal(Decimal(n)) == Some(n)
  {
    if n >= 10 {
      ScansDecimal(n / 10);
      assert Decimal(n)[..|Decimal(n)| - 1] == Decimal(n / 10);
    }
  }

  /** There is a reader of literals as the results about parsing assume it: the one for plain decimals. */
  lemma ScannerExists()
    ensures ReadsDecimals(ScanDecimal)
  {
    forall n: nat
      ensures ScanDecimal(Decimal(n)) == Some(n)
    {
      ScansDecimal(n);
    }
  }

  predicate Quoted(s: string) {
    |s| > 0 && s[|s| - 1] == '\''
  }

  function ParseComponent(text: string, scan: Scanner): Result<Uint32> {
    var trimmed := TrimSpace(text);
    var hardened := Quoted(trimmed);
    var base := if hardened then HARDENED else 0;
    var literal := if hardened then TrimSpace(trimmed[..|trimmed| - 1]) else trimmed;
    match scan(literal)
    case None => Err(InvalidComponent)
    case Some(v) =>
      if v < 0 || v > MAX_UINT32 - base then Err(if hardened then OutOfHardenedRange else OutOfRange)
      else Ok(base + v)
  }

  function PrintComponent(c: Uint32): string {
    if c >= HARDENED then Decimal(c - HARDENED) + "'" else Decimal(c)
  }

  lemma TrimNothing(s: string)
    requires |s| > 0 && !IsSpace(s[0]) && !IsSpace(s[|s| - 1])
    ensures TrimSpace(s) == s
  {
  }

  lemma ComponentRoundTrip(c: Uint32, scan: Scanner)
    requires ReadsDecimals(scan)
    ensures ParseComponent(PrintComponent(c), scan) == Ok(c)
  {
    hide Decimal, TrimSpace;
    DecimalKept(if c >= HARDENED then c - HARDENED else c);
  }

  lemma DecimalKept(n: nat)
    ensures TrimSpace(Decimal(n)) == Decimal(n) && !Quoted(Decimal(n))
    ensures var quoted := Decimal(n) + "'";
            TrimSpace(quoted) == quoted && Quoted(quoted) && quoted[..|quoted| - 1] == Decimal(n)
  {
    hide TrimSpace;
    TrimNothing(Decimal(n));
    TrimNothing(Decimal(n) + "'");
  }

  lemma PrintedOk(c: Uint32)
    ensures '/' !in PrintComponent(c)
  {
  }

  /** White space around a component is ignored. */
  lemma ComponentPadded(left: string, text: string, right: string, scan: Scanner)
    requires Blank(left) && Blank(right)
    ensures ParseComponent(left + text + right, scan) == ParseComponent(text, scan)
  {
    TrimPadded(left, text, right);
  }

  // ----- Paths -----

  /** The first component that cannot be read decides. */
  function ParseAll(parts: seq<string>, scan: Scanner): Result<Path> {
    if |parts| == 0 then Ok([])
    else
      match ParseAll(parts[..|parts| - 1], scan)
      case Err(e) => Err(e)
      case Ok(path) =>
        match ParseComponent(parts[|parts| - 1], scan)
        case Err(e) => Err(e)
        case Ok(c) => Ok(path + [c])
  }

  function Rooted(root: Path, rest: Result<Path>): Result<Path> {
    if rest.Ok? then Ok(root + rest.value) else rest
  }

  function Parse(s: string, scan: Scanner): Result<Path> {
    var parts := Split(s);
    var first := TrimSpace(parts[0]);
    if first == "" then Err(AmbiguousPath)
    else if first != "m" then Rooted(DEFAULT_ROOT, ParseAll(parts, scan))
    else if |parts| == 1 then Err(EmptyPath)
    else ParseAll(parts[1..], scan)
  }

  function Print(path: Path): string {
    if |path| == 0 then "m" else Print(path[..|path| - 1]) + "/" + PrintComponent(path[|path| - 1])
  }

  function PrintAll(path: Path): (parts: seq<string>)
    ensures |parts| == |path|
  {
    if |path| == 0 then [] else PrintAll(path[..|path| - 1]) + [PrintComponent(path[|path| - 1])]
  }

  lemma {:induction false} PrintSplits(path: Path)
    ensures Split(Print(path)) == ["m"] + PrintAll(path)
  {
    if |path| == 0 {
      SplitOne("m");
    } else {
      var front, last := path[..|path| - 1], PrintComponent(path[|path| - 1]);
      PrintSplits(front);
      SplitConcat(Print(front), last);
      PrintedOk(path[|path| - 1]);
      SplitOne(last);
    }
  }

  lemma {:induction false} PrintParses(path: Path, scan: Scanner)
    requires ReadsDecimals(scan)
    ensures ParseAll(PrintAll(path), scan) == Ok(path)
  {
    if |path| > 0 {
      var front := path[..|path| - 1];
      PrintParses(front, scan);
      ComponentRoundTrip(path[|path| - 1], scan);
      assert PrintAll(path)[..|path| - 1] == PrintAll(front);
      assert front + [path[|path| - 1]] == path;
    }
  }

  /** What is printed parses back, for every path but the empty one. */
  lemma RoundTrip(path: Path, scan: Scanner)
    requires ReadsDecimals(scan)
    ensures Parse(Print(path), scan) == if path == [] then Err(EmptyPath) else Ok(path)
  {
    PrintSplits(path);
    PrintParses(path, scan);
    TrimNothing("m");
    assert (["m"] + PrintAll(path))[1..] == PrintAll(path);
  }

  lemma {:induction false} ParseAllLength(parts: seq<string>, scan: Scanner)
    ensures ParseAll(parts, scan).Ok? ==> |ParseAll(parts, scan).value| == |parts|
  {
    if |parts| > 0 {
      ParseAllLength(parts[..|parts| - 1], scan);
    }
  }

  /** Printing what was parsed gives a canonical form of the same path. */
  lemma ParsePrintParse(s: string, scan: Scanner)
    requires ReadsDecimals(scan) && Parse(s, scan).Ok?
    ensures Parse(Print(Parse(s, scan).value), scan) == Parse(s, scan)
  {
    var parts := Split(s);
    ParseAllLength(parts, scan);
    ParseAllLength(parts[1..], scan);
    RoundTrip(Parse(s, scan).value, scan);
  }

  lemma {:induction false} ParseAllConcat(a: seq<string>, b: seq<string>, scan: Scanner)
    requires ParseAll(a, scan).Ok?
    ensures ParseAll(a + b, scan) == Rooted(ParseAll(a, scan).value, ParseAll(b, scan))
  {
    if |b| == 0 {
      assert a + b == a;
      assert ParseAll(a, scan).value + [] == ParseAll(a, scan).value;
    } else {
      var front := b[..|b| - 1];
      ParseAllConcat(a, front, scan);
      assert (a + b)[..|a + b| - 1] == a + front;
      if ParseAll(b, scan).Ok? {
        var c := ParseComponent(b[|b| - 1], scan).value;
        assert ParseAll(a, scan).value + ParseAll(front, scan).value + [c] ==
               ParseAll(a, scan).value + (ParseAll(front, scan).value + [c]);
      }
    }
  }

  /** Components written after a printed path extend that path. */
  lemma PrefixParses(root: Path, s: string, scan: Scanner)
    requires ReadsDecimals(scan)
    ensures Parse(Print(root) + "/" + s, scan) == Rooted(root, ParseAll(Split(s), scan))
  {
    hide Split, Print, PrintAll, TrimSpace, ParseComponent, ReadsDecimals;
    SplitConcat(Print(root), s);
    PrintSplits(root);
    PrintParses(root, scan);
    TrimNothing("m");
    ParseAllConcat(PrintAll(root), Split(s), scan);
    assert (["m"] + PrintAll(root) + Split(s))[1..] == PrintAll(root) + Split(s);
  }

  /** A relative path means the same as the path written out under the default root. */
  lemma RelativeIsRooted(s: string, scan: Scanner)
    requires ReadsDecimals(scan)
    requires TrimSpace(Split(s)[0]) != "" && TrimSpace(Split(s)[0]) != "m"
    ensures Parse(s, scan) == Parse(Print(DEFAULT_ROOT) + "/" + s, scan)
  {
    hide Split, Print, TrimSpace, ParseAll, ReadsDecimals;
    PrefixParses(DEFAULT_ROOT, s, scan);
  }

  // ----- The loops of the source -----

  /** The body of the parser's loop. */
  method ReadComponent(text: string, scan: Scanner) returns (r: Result<Uint32>)
    ensures r == ParseComponent(text, scan)
  {
    hide TrimSpace;
    var component, value := TrimSpace(text), 0;
    if Quoted(component) {
      value := HARDENED;
      component := TrimSpace(component[..|component| - 1]);
    }
    var bigval := scan(component);
    if bigval.None? {
      return Err(InvalidComponent);
    }
    var max := MAX_UINT32 - value;
    if bigval.value < 0 || bigval.value > max {
      return Err(if value == 0 then OutOfRange else OutOfHardenedRange);
    }
    r := Ok(value + bigval.value);
  }

  method ParseDerivationPath(path: string, scan: Scanner) returns (r: Result<Path>)
    ensures r == Parse(path, scan)
  {
    hide TrimSpace, ParseComponent, Split;
    var result: Path := [];
    var components := Split(path);
    ghost var root: Path := [];
    if TrimSpace(components[0]) == "" {
      return Err(AmbiguousPath);
    } else if TrimSpace(components[0]) == "m" {
      components := components[1..];
    } else {
      result, root := DEFAULT_ROOT, DEFAULT_ROOT;
    }
    if |components| == 0 {
      return Err(EmptyPath);
    }
    for i := 0 to |components|
      invariant ParseAll(components[..i], scan).Ok? && result == root + ParseAll(components[..i], scan).value
    {
      assert components[..i + 1][..i] == components[..i];
      var value := ReadComponent(components[i], scan);
      if value.Err? {
        FirstError(components, i, scan);
        return Err(value.error);
      }
      result := result + [value.value];
    }
    assert components[..|components|] == components;
    assert root == [] ==> result == ParseAll(components, scan).value;
    r := Ok(result);
  }

  lemma {:induction false} FirstError(parts: seq<string>, i: nat, scan: Scanner)
    requires i < |parts| && ParseAll(parts[..i], scan).Ok? && ParseComponent(parts[i], scan).Err?
    ensures ParseAll(parts, scan) == Err(ParseComponent(parts[i], scan).error)
    decreases |parts|
  {
    if i < |parts| - 1 {
      var front := parts[..|parts| - 1];
      assert front[..i] == parts[..i];
      FirstError(front, i, scan);
    }
  }

  method String(path: Path) returns (result: string)
    ensures result == Print(path)
  {
    result := "m";
    for i := 0 to |path|
      invariant result == Print(path[..i])
    {
      assert path[..i + 1][..i] == path[..i];
      var component: nat, hardened := path[i], false;
      if component >= HARDENED {
        component, hardened := component - HARDENED, true;
      }
      var before := result;
      result := result + "/" + Decimal(component);
      if hardened {
        result := result + "'";
      }
      assert result == before + "/" + PrintComponent(path[i]);
    }
    assert path[..|path|] == path;
  }
}
