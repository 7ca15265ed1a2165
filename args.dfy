/** Command-line helpers: the grid size parser and the UI style selector (src/app.rs:49-58,
    889-904). */
module Cli {
  import opened Wrappers
  import opened Constants

  // -- Splitting ----------------------------------------------------------------------

  /** How often `sep` occurs in `s`. */
  function Occurrences(s: string, sep: char): nat {
    multiset(s)[sep]
  }

  /** The position of the first `c` in `s`. */
  function IndexOf(s: string, c: char): (i: nat)
    requires c in s
    ensures i < |s| && s[i] == c && c !in s[..i]
    ensures forall j :: 0 <= j < i ==> s[j] != c
  {
    if s[0] == c then 0
    else
      var i := IndexOf(s[1..], c) + 1;
      assert s[..i] == [s[0]] + s[1..][..i - 1];
      i
  }

  /** The parts of `s` between occurrences of `sep` (`str::split` on a character): always one more
      part than there are separators, and no part holds the separator. */
  function Split(s: string, sep: char): (parts: seq<string>)
    ensures |parts| == Occurrences(s, sep) + 1
    ensures forall k :: 0 <= k < |parts| ==> sep !in parts[k]
    decreases |s|
  {
    if sep !in s then [s]
    else
      var i := IndexOf(s, sep);
      assert s == s[..i] + [sep] + s[i + 1..];
      [s[..i]] + Split(s[i + 1..], sep)
  }

  /** The parts joined back with `sep` between them. */
  function Join(parts: seq<string>, sep: char): string
    requires |parts| > 0
    decreases |parts|
  {
    if |parts| == 1 then parts[0] else parts[0] + [sep] + Join(parts[1..], sep)
  }

  /** Splitting loses nothing: joining the parts gives back the input. */
  lemma {:induction false} SplitJoin(s: string, sep: char)
    ensures Join(Split(s, sep), sep) == s
    decreases |s|
  {
    if sep in s {
      var i := IndexOf(s, sep);
      assert s == s[..i] + [sep] + s[i + 1..];
      SplitJoin(s[i + 1..], sep);
      assert Split(s, sep)[1..] == Split(s[i + 1..], sep);
    }
  }

  /** Joining separator-free parts and splitting again gives the parts back. */
  lemma {:induction false} JoinSplit(parts: seq<string>, sep: char)
    requires |parts| > 0
    requires forall k :: 0 <= k < |parts| ==> sep !in parts[k]
    ensures Split(Join(parts, sep), sep) == parts
    decreases |parts|
  {
    if |parts| > 1 {
      JoinHead(parts, sep);
      JoinSplit(parts[1..], sep);
      assert Split(Join(parts, sep), sep) == [parts[0]] + Split(Join(parts[1..], sep), sep);
      assert parts == [parts[0]] + parts[1..];
    }
  }

  /** In the joined string the first separator sits right after the first part. */
  lemma JoinHead(parts: seq<string>, sep: char)
    requires |parts| > 1 && sep !in parts[0]
    ensures sep in Join(parts, sep)
    ensures IndexOf(Join(parts, sep), sep) == |parts[0]|
    ensures Join(parts, sep)[..|parts[0]|] == parts[0]
    ensures Join(parts, sep)[|parts[0]| + 1..] == Join(parts[1..], sep)
  {
    var s := Join(parts, sep);
    var a := parts[0];
    assert s == a + [sep] + Join(parts[1..], sep);
    assert s[|a|] == sep;
    assert forall j :: 0 <= j < |a| ==> s[j] == a[j];
  }

  /** Splitting a string with exactly one separator gives the text before and after it. */
  lemma SplitTwo(a: string, b: string, sep: char)
    requires sep !in a && sep !in b
    ensures Split(a + [sep] + b, sep) == [a, b]
  {
    JoinSplit([a, b], sep);
    assert Join([a, b], sep) == a + [sep] + Join([b], sep);
  }

  // -- Unsigned integers -----------------------------------------------------------------

  /** The largest `usize` on a 64-bit target. */
  const USIZE_MAX: nat := 0xFFFF_FFFF_FFFF_FFFF

  predicate IsDigit(c: char) {
    '0' <= c <= '9'
  }

  predicate AllDigits(s: string) {
    forall i :: 0 <= i < |s| ==> IsDigit(s[i])
  }

  /** The number written by a string of decimal digits. */
  function DigitsValue(s: string): nat
    requires AllDigits(s)
    decreases |s|
  {
    if s == [] then 0
    else DigitsValue(s[..|s| - 1]) * 10 + (s[|s| - 1] as int - '0' as int)
  }

  /** The text after an optional leading '+'. */
  function Unsigned(s: string): (u: string)
    ensures |s| > 0 && s[0] == '+' ==> u == s[1..]
    ensures !(|s| > 0 && s[0] == '+') ==> u == s
  {
    if |s| > 0 && s[0] == '+' then s[1..] else s
  }

  /** `str::parse::<usize>`: an optional leading '+', then at least one decimal digit and nothing
      else, with a value that fits in a `usize`. A '-' sign is rejected. */
  function ParseUsize(s: string): (r: Option<nat>)
    ensures r.Some? ==> r.value <= USIZE_MAX
    ensures s == [] ==> r.None?
    ensures (exists i :: 0 <= i < |s| && !IsDigit(s[i]) && (i > 0 || s[i] != '+')) ==> r.None?
    ensures r.Some? ==> Unsigned(s) != [] && AllDigits(Unsigned(s)) && r.value == DigitsValue(Unsigned(s))
    ensures Unsigned(s) != [] && AllDigits(Unsigned(s))
            ==> (r.Some? <==> DigitsValue(Unsigned(s)) <= USIZE_MAX)
  {
    var body := Unsigned(s);
    if body == [] || !AllDigits(body) then None
    else
      var v := DigitsValue(body);
      if v <= USIZE_MAX then Some(v) else None
  }

  function DigitChar(d: nat): (c: char)
    requires d < 10
    ensures IsDigit(c) && c as int - '0' as int == d
  {
    ('0' as int + d) as char
  }

  /** The decimal representation of `n`, without leading zeros. */
  function Decimal(n: nat): (s: string)
    ensures |s| > 0 && AllDigits(s)
    ensures DigitsValue(s) == n
    decreases n
  {
    if n < 10 then [DigitChar(n)]
    else
      var s := Decimal(n / 10) + [DigitChar(n % 10)];
      assert s[..|s| - 1] == Decimal(n / 10);
      s
  }

  /** Every `usize` printed in decimal parses back to itself. */
  lemma ParseUsizeDecimal(n: nat)
    requires n <= USIZE_MAX
    ensures ParseUsize(Decimal(n)) == Some(n)
  {
    assert Decimal(n)[0] != '+';
  }

  // -- Grid size ----------------------------------------------------------------------------

  /** Why a size argument was rejected: the three messages of `parse_size`. */
  datatype SizeError = BadFormat | InvalidWidth | InvalidHeight

  /** `parse_size`: "WxH" with exactly one 'x' between two `usize` numbers. */
  function ParseSize(s: string): (r: Result<(nat, nat), SizeError>)
    ensures r == Err(BadFormat) <==> Occurrences(s, 'x') != 1
    ensures r.Ok? ==> r.value.0 <= USIZE_MAX && r.value.1 <= USIZE_MAX
  {
    var parts := Split(s, 'x');
    if |parts| != 2 then Err(BadFormat)
    else match ParseUsize(parts[0])
      case None => Err(InvalidWidth)
      case Some(w) =>
        match ParseUsize(parts[1])
        case None => Err(InvalidHeight)
        case Some(h) => Ok((w, h))
  }

  /** A well-formed size argument parses to its two numbers. */
  lemma ParseSizeRoundTrip(w: nat, h: nat)
    requires w <= USIZE_MAX && h <= USIZE_MAX
    ensures ParseSize(Decimal(w) + "x" + Decimal(h)) == Ok((w, h))
  {
    assert 'x' !in Decimal(w) by { assert !IsDigit('x'); }
    assert 'x' !in Decimal(h) by { assert !IsDigit('x'); }
    SplitTwo(Decimal(w), Decimal(h), 'x');
    ParseUsizeDecimal(w);
    ParseUsizeDecimal(h);
  }

  /** The size the program starts with: the parsed size, or the default 78x16 when the argument is
      rejected (src/main.rs:9). */
  function GridSizeOrDefault(s: string): (size: (nat, nat))
    ensures ParseSize(s).Ok? ==> size == ParseSize(s).value
    ensures ParseSize(s).Err? ==> size == (DEFAULT_GRID_WIDTH, DEFAULT_GRID_HEIGHT)
  {
    match ParseSize(s)
    case Ok(v) => v
    case Err(_) => (DEFAULT_GRID_WIDTH, DEFAULT_GRID_HEIGHT)
  }

  /** A size argument with one 'x' is judged part by part: the width first, then the height. */
  lemma ParseSizeParts(w: string, h: string)
    requires 'x' !in w && 'x' !in h
    ensures ParseUsize(w).None? ==> ParseSize(w + "x" + h) == Err(InvalidWidth)
    ensures ParseUsize(w).Some? && ParseUsize(h).None? ==> ParseSize(w + "x" + h) == Err(InvalidHeight)
    ensures ParseUsize(w).Some? && ParseUsize(h).Some?
            ==> ParseSize(w + "x" + h) == Ok((ParseUsize(w).value, ParseUsize(h).value))
  {
    SplitTwo(w, h, 'x');
  }

  /** A sign alone, a minus sign and a value above `usize::MAX` are rejected; a '+' is accepted. */
  lemma ParseUsizeSigns(t: string)
    ensures ParseUsize("+") == None && ParseUsize("-" + t) == None
    ensures AllDigits(t) && t != [] && DigitsValue(t) <= USIZE_MAX ==> ParseUsize("+" + t) == Some(DigitsValue(t))
    ensures ParseUsize(Decimal(USIZE_MAX + 1)) == None
  {
    assert ("-" + t)[0] == '-';
    assert ("+" + t)[1..] == t;
    assert Decimal(USIZE_MAX + 1)[0] != '+';
  }

  // -- UI style --------------------------------------------------------------------------------

  /** ASCII lower-casing of one character. */
  function AsciiLower(c: char): (r: char)
    ensures 'A' <= c <= 'Z' ==> r as int == c as int + 32
    ensures !('A' <= c <= 'Z') ==> r == c
  {
    if 'A' <= c <= 'Z' then (c as int + 32) as char else c
  }

  function LowerString(s: string): (r: string)
    ensures |r| == |s| && forall i :: 0 <= i < |s| ==> r[i] == AsciiLower(s[i])
  {
    seq(|s|, i requires 0 <= i < |s| => AsciiLower(s[i]))
  }

  /** `Args::get_ui_style`: the style named, case-insensitively, by the `--ui` argument; anything
      else is MS-DOS. */
  function GetUiStyle(ui: string): (r: DefragStyle)
    ensures r == Windows98 <==> LowerString(ui) in {"win98", "windows98", "98"}
    ensures r == Windows95 <==> LowerString(ui) in {"win95", "windows95", "95"}
  {
    var l := LowerString(ui);
    if l == "win98" || l == "windows98" || l == "98" then Windows98
    else if l == "win95" || l == "windows95" || l == "95" then Windows95
    else MsDos
  }

  /** Lower-casing twice changes nothing more. */
  lemma LowerIdempotent(s: string)
    ensures LowerString(LowerString(s)) == LowerString(s)
  {
  }

  /** The style ignores case: an argument and its lower-cased form select the same style. */
  lemma UiStyleIgnoresCase(ui: string)
    ensures GetUiStyle(LowerString(ui)) == GetUiStyle(ui)
  {
    LowerIdempotent(ui);
  }

  /** Examples: mixed case is accepted, and unknown names fall back to MS-DOS. */
  lemma UiStyleExamples()
    ensures GetUiStyle("Win98") == Windows98
    ensures GetUiStyle("WINDOWS95") == Windows95
    ensures GetUiStyle("msdos") == MsDos
    ensures GetUiStyle("win 98") == MsDos
  {
    assert LowerString("Win98") == "win98";
    assert LowerString("WINDOWS95") == "windows95";
    assert LowerString("msdos") == "msdos";
    assert LowerString("win 98") == "win 98";
  }
}
