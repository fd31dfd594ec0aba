/**
 * The two pieces of `main.cpp` with logic of their own: `validate`, which
 * turns a `--size` token into a size filter, and the construction of the
 * argument vector handed to `execv` for `--exec`; plus the registration of
 * the parsed options with the finder, in command-line order.
 */
module Cli {
  import opened Wrappers
  import opened SizeFilters
  import opened Registry
  import opened Traversal

  // ---------------------------------------------------------------------
  // `validate`: the size token

  /** `validation_error::invalid_option_value`. */
  datatype ValidationError = InvalidOptionValue

  predicate IsDigit(c: char)
  {
    '0' <= c <= '9'
  }

  predicate IsSign(c: char)
  {
    c == '-' || c == '+' || c == '='
  }

  /** The strings the pattern `[-+=]\d+` matches as a whole: a sign and at
      least one decimal digit. */
  predicate IsSizeToken(s: string)
  {
    |s| >= 2 && IsSign(s[0]) && forall i :: 1 <= i < |s| ==> IsDigit(s[i])
  }

  /** The pattern's automaton: state 0 expects the sign, state 1 a first
      digit, state 2 (accepting) further digits. */
  function Run(state: nat, s: string): bool
    requires state <= 2
    decreases |s|
  {
    if |s| == 0 then state == 2
    else if state == 0 then IsSign(s[0]) && Run(1, s[1..])
    else IsDigit(s[0]) && Run(2, s[1..])
  }

  /** After the sign, the automaton accepts exactly the digit strings (of
      length at least one, unless a digit was already read). */
  lemma {:induction false} RunDigits(state: nat, s: string)
    requires state == 1 || state == 2
    ensures Run(state, s) <==> (state == 2 || |s| > 0) && forall i :: 0 <= i < |s| ==> IsDigit(s[i])
    decreases |s|
  {
    if |s| > 0 {
      RunDigits(2, s[1..]);
      assert forall i :: 1 <= i < |s| ==> s[i] == s[1..][i - 1];
    }
  }

  /** `std::regex_match(s, match, r)` with `r` the pattern `[-+=]\d+`. */
  function MatchesSizePattern(s: string): (m: bool)
    ensures m <==> IsSizeToken(s)
  {
    if |s| > 0 then
      RunDigits(1, s[1..]);
      assert forall i :: 1 <= i < |s| ==> s[i] == s[1..][i - 1];
      Run(0, s)
    else
      Run(0, s)
  }

  /** The comparison a sign selects. */
  function ModeOf(c: char): Cmp
    requires IsSign(c)
  {
    match c
    case '-' => Less
    case '+' => Greater
    case '=' => Eq
  }

  /** The sign that selects a comparison. */
  function SignOf(m: Cmp): (c: char)
    ensures IsSign(c) && ModeOf(c) == m
  {
    match m
    case Less => '-'
    case Greater => '+'
    case Eq => '='
  }

  /** Distinct signs select distinct comparisons. */
  lemma SignOfModeOf(c: char)
    requires IsSign(c)
    ensures SignOf(ModeOf(c)) == c
  {
  }

  /** One past the largest `size_t`. */
  const SizeLimit: nat := 0x1_0000_0000_0000_0000

  predicate AllDigits(ds: string)
  {
    forall i :: 0 <= i < |ds| ==> IsDigit(ds[i])
  }

  function DigitValue(c: char): nat
    requires IsDigit(c)
  {
    c as int - '0' as int
  }

  /** The value of a digit string read left to right, as `from_chars`
      accumulates it. */
  function DecimalValue(ds: string): nat
    requires AllDigits(ds)
  {
    if |ds| == 0 then 0
    else DecimalValue(ds[..|ds| - 1]) * 10 + DigitValue(ds[|ds| - 1])
  }

  /** The shortest decimal spelling of `n`. */
  function Decimal(n: nat): (ds: string)
    ensures |ds| > 0 && AllDigits(ds)
    ensures ds[0] == '0' ==> n == 0
  {
    var last := ['0' + (n % 10) as char];
    if n < 10 then last else Decimal(n / 10) + last
  }

  /** Reading back the decimal spelling of a number gives that number. */
  lemma {:induction false} DecimalValueOfDecimal(n: nat)
    ensures DecimalValue(Decimal(n)) == n
  {
    var ds := Decimal(n);
    if n >= 10 {
      DecimalValueOfDecimal(n / 10);
      assert ds[..|ds| - 1] == Decimal(n / 10);
    }
  }

  /** `std::from_chars` into the uninitialised `val`: the value when it
      fits in a `size_t`; otherwise `val` is left holding whatever it held,
      which `uninit` stands for. */
  function FromChars(ds: string, uninit: nat): (v: nat)
    requires AllDigits(ds)
    ensures forall n: nat :: n < SizeLimit && ds == Decimal(n) ==> v == n
    ensures v < SizeLimit || v == uninit
  {
    assert forall n: nat :: ds == Decimal(n) ==> DecimalValue(ds) == n by {
      forall n: nat | ds == Decimal(n) ensures DecimalValue(ds) == n {
        DecimalValueOfDecimal(n);
      }
    }
    var v := DecimalValue(ds);
    if v < SizeLimit then v else uninit
  }

  /** A leading zero does not change the digits' value. */
  lemma {:induction false} DecimalValueLeadingZero(ds: string)
    requires AllDigits(ds)
    ensures AllDigits("0" + ds) && DecimalValue("0" + ds) == DecimalValue(ds)
    decreases |ds|
  {
    var zs := "0" + ds;
    assert AllDigits(zs) by {
      assert forall i :: 1 <= i < |zs| ==> zs[i] == ds[i - 1];
    }
    if |ds| > 0 {
      var init := ds[..|ds| - 1];
      assert AllDigits(init) by {
        assert forall i :: 0 <= i < |init| ==> init[i] == ds[i];
      }
      DecimalValueLeadingZero(init);
      assert zs[..|zs| - 1] == "0" + init;
    }
  }

  /** `from_chars` ignores leading zeros: `0`-padded digits parse to the
      same threshold, with the same overflow behaviour. */
  lemma FromCharsLeadingZeros(ds: string, uninit: nat)
    requires AllDigits(ds)
    ensures AllDigits("0" + ds) && FromChars("0" + ds, uninit) == FromChars(ds, uninit)
  {
    DecimalValueLeadingZero(ds);
  }

  /** `validate` for a `--size` token: the whole token must match the
      pattern; the sign selects the comparison and the digits after it the
      threshold. */
  function ParseSize(s: string, uninit: nat): (r: Result<SizeFilter, ValidationError>)
    ensures r.Ok? <==> IsSizeToken(s)
    ensures r.Err? ==> r.error == InvalidOptionValue
    ensures r.Ok? ==> r.value.mode == ModeOf(s[0])
    ensures r.Ok? && DecimalValue(s[1..]) < SizeLimit ==> r.value.val == DecimalValue(s[1..])
  {
    if MatchesSizePattern(s) then
      assert AllDigits(s[1..]) by {
        assert forall i :: 1 <= i < |s| ==> s[i] == s[1..][i - 1];
      }
      Ok(SizeFilter(FromChars(s[1..], uninit), ModeOf(s[0])))
    else
      Err(InvalidOptionValue)
  }

  /** Printing a size filter as a sign and its threshold in decimal and
      parsing it back gives the same filter, for every threshold a `size_t`
      holds. */
  lemma ParseSizeRoundTrip(f: SizeFilter, uninit: nat)
    requires f.val < SizeLimit
    ensures ParseSize([SignOf(f.mode)] + Decimal(f.val), uninit) == Ok(f)
  {
    var s := [SignOf(f.mode)] + Decimal(f.val);
    assert s[1..] == Decimal(f.val);
    DecimalValueOfDecimal(f.val);
  }

  // ---------------------------------------------------------------------
  // Registering the parsed options

  /** The parsed options, each list in command-line order. */
  datatype Options = Options(inums: seq<nat>, names: seq<string>, sizes: seq<SizeFilter>, nlinks: seq<nat>)

  function RegisterInums(r: Registry, xs: seq<nat>): (r': Registry)
    ensures r'.inums == r.inums + (set x | x in xs)
    ensures r'.names == r.names && r'.sizes == r.sizes && r'.nlinks == r.nlinks
    decreases |xs|
  {
    if |xs| == 0 then r else RegisterInums(FilterInum(r, xs[0]), xs[1..])
  }

  function RegisterNames(r: Registry, xs: seq<string>): (r': Registry)
    ensures r'.names == r.names + (set x | x in xs)
    ensures r'.inums == r.inums && r'.sizes == r.sizes && r'.nlinks == r.nlinks
    decreases |xs|
  {
    if |xs| == 0 then r else RegisterNames(FilterName(r, xs[0]), xs[1..])
  }

  function RegisterSizes(r: Registry, fs: seq<SizeFilter>): (r': Registry)
    ensures r'.sizes == r.sizes + fs
    ensures r'.inums == r.inums && r'.names == r.names && r'.nlinks == r.nlinks
    decreases |fs|
  {
    if |fs| == 0 then r
    else
      assert r.sizes + fs == (r.sizes + [fs[0]]) + fs[1..];
      RegisterSizes(FilterSize(r, fs[0]), fs[1..])
  }

  function RegisterNlinks(r: Registry, xs: seq<nat>): (r': Registry)
    ensures r'.nlinks == r.nlinks + (set x | x in xs)
    ensures r'.inums == r.inums && r'.names == r.names && r'.sizes == r.sizes
    decreases |xs|
  {
    if |xs| == 0 then r else RegisterNlinks(FilterNlinks(r, xs[0]), xs[1..])
  }

  /** A fresh finder with every parsed option registered: the set filters
      hold the given values and the size filters are the parsed ones, in
      command-line order. */
  function Configure(o: Options): (r: Registry)
    ensures r.inums == (set x | x in o.inums)
    ensures r.names == (set x | x in o.names)
    ensures r.sizes == o.sizes
    ensures r.nlinks == (set x | x in o.nlinks)
  {
    RegisterNlinks(RegisterSizes(RegisterNames(RegisterInums(Fresh(), o.inums), o.names), o.sizes), o.nlinks)
  }

  // ---------------------------------------------------------------------
  // The `--exec` argument vector

  /** The vector handed to `execv`: the program, every found path in
      result order, and a terminating null pointer. */
  method BuildExecArgv(exec: Path, found: seq<Path>) returns (argv: seq<Option<Path>>)
    ensures |argv| == |found| + 2
    ensures argv[0] == Some(exec) && argv[|found| + 1] == None
    ensures forall i :: 0 <= i < |found| ==> argv[i + 1] == Some(found[i])
  {
    argv := [Some(exec)];
    var i := 0;
    while i < |found|
      invariant 0 <= i <= |found|
      invariant |argv| == i + 1 && argv[0] == Some(exec)
      invariant forall j :: 0 <= j < i ==> argv[j + 1] == Some(found[j])
    {
      argv := argv + [Some(found[i])];
      i := i + 1;
    }
    argv := argv + [None];
  }

  /** The arguments `execv` passes on: the strings before the first null. */
  function ArgvStrings(argv: seq<Option<Path>>): seq<Path>
  {
    if |argv| == 0 || argv[0].None? then [] else [argv[0].value] + ArgvStrings(argv[1..])
  }

  /** The executed program receives its own path followed by exactly the
      found paths, in result order. */
  lemma {:induction false} ArgvStringsUpToNull(argv: seq<Option<Path>>, args: seq<Path>)
    requires |argv| == |args| + 1 && argv[|args|] == None
    requires forall i :: 0 <= i < |args| ==> argv[i] == Some(args[i])
    ensures ArgvStrings(argv) == args
    decreases |args|
  {
    if |args| > 0 {
      ArgvStringsUpToNull(argv[1..], args[1..]);
    }
  }

  /** What the program started by `--exec` sees as its arguments. */
  method ExecArguments(exec: Path, found: seq<Path>) returns (args: seq<Path>)
    ensures args == [exec] + found
  {
    var argv := BuildExecArgv(exec, found);
    ArgvStringsUpToNull(argv, [exec] + found);
    args := ArgvStrings(argv);
  }
}
