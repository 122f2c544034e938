/** Field values of the records the discount engine reads (program records,
    catalog properties), and the Python conversions the engine applies to them.
    A record is a dictionary from configuration-defined field codes to values. */
module Values {

  /** A dynamically typed field value: an integer, a decimal, a text, or None. */
  datatype Value = Int(i: int) | Dec(d: real) | Text(s: string) | Null

  /** One program record (one smart-process element): field code to value. */
  type Record = map<string, Value>

  /** The exceptions the engine lets escape; any of them aborts the run. */
  datatype Error = KeyError(key: string) | TypeError | NotANumber | IndexError

  datatype Option<+T> = None | Some(value: T)

  /** The outcome of a step that may raise. Usable with `:-`. */
  datatype Result<+T> = Ok(value: T) | Err(error: Error) {
    predicate IsFailure() {
      Err?
    }

    function PropagateFailure<U>(): Result<U>
      requires Err?
    {
      Err(error)
    }

    function Extract(): T
      requires Ok?
    {
      value
    }
  }

  /** A non-empty set of ids has an element (stated so that `:|` can pick one). */
  lemma NonEmptyHasElement(s: set<int>)
    requires s != {}
    ensures exists x :: x in s
  {
    if forall x :: x !in s {
      assert false;
    }
  }

  /** `record.get(code)`: None when the code is missing. */
  function Get(r: Record, code: string): (v: Value)
    ensures code !in r ==> v == Null
  {
    if code in r then r[code] else Null
  }

  /** `record[code]`: raises KeyError when the code is missing. */
  function Index(r: Record, code: string): (v: Result<Value>)
    ensures v.Ok? <==> code in r
    ensures v.Ok? ==> v.value == r[code]
    ensures v.Err? ==> v.error == KeyError(code)
  {
    if code in r then Ok(r[code]) else Err(KeyError(code))
  }

  /** Python truthiness: zero, the empty text and None are false. */
  predicate Truthy(v: Value) {
    match v
    case Int(i) => i != 0
    case Dec(d) => d != 0.0
    case Text(s) => s != ""
    case Null => false
  }

  /** Whether a decimal holds a whole number. */
  predicate IsWhole(d: real) {
    d.Floor as real == d
  }

  /** The dictionary key a value denotes when it is looked up among integer
      group ids: Python compares an integer and an integral Decimal equal (and
      hashes them alike), while a text never equals an integer. */
  function GroupKey(v: Value): (k: Option<int>)
    ensures v.Text? || v.Null? ==> k == None
    ensures v.Int? ==> k == Some(v.i)
    ensures v.Dec? ==> (k.Some? <==> IsWhole(v.d)) && (k.Some? ==> k.value as real == v.d)
  {
    match v
    case Int(i) => Some(i)
    case Dec(d) => if IsWhole(d) then Some(d.Floor) else None
    case _ => None
  }

  /** `value in groups` for a dictionary keyed by group id: the group the
      value denotes, when it is one of the keys. */
  function GroupIn(v: Value, groups: map<int, real>): (t: Option<int>)
    ensures t.Some? <==> GroupKey(v).Some? && GroupKey(v).value in groups
    ensures t.Some? ==> t == GroupKey(v)
  {
    match GroupKey(v)
    case Some(g) => if g in groups then Some(g) else None
    case None => None
  }

  /** A decimal is found among the integer group ids exactly when it equals
      one of them. */
  lemma GroupInDecimal(d: real, groups: map<int, real>)
    ensures GroupIn(Dec(d), groups).Some? <==> exists g :: g in groups && g as real == d
  {
    if GroupIn(Dec(d), groups).Some? {
      assert d.Floor in groups && d.Floor as real == d;
    }
    if exists g :: g in groups && g as real == d {
      var g :| g in groups && g as real == d;
      assert IsWhole(d) && d.Floor == g;
    }
  }

  /** Truncation toward zero, as Python's int() does on a Decimal. */
  function Truncate(d: real): (n: int)
    ensures 0.0 <= d ==> n as real <= d < n as real + 1.0
    ensures d < 0.0 ==> n as real - 1.0 < d <= n as real
  {
    if d >= 0.0 then d.Floor else -((-d).Floor)
  }

  predicate IsDigit(c: char) {
    '0' <= c <= '9'
  }

  predicate AllDigits(s: string) {
    forall k :: 0 <= k < |s| ==> IsDigit(s[k])
  }

  /** The number a string of decimal digits denotes. */
  function DigitsValue(s: string): (n: nat)
    requires AllDigits(s)
    decreases |s|
  {
    if s == [] then 0
    else 10 * DigitsValue(s[..|s| - 1]) + (s[|s| - 1] as int - '0' as int)
  }

  /** The text an integer is written as: an optional '-' and its digits. */
  function ShowNat(n: nat): (s: string)
    ensures s != [] && AllDigits(s)
    decreases n
  {
    var last := [((n % 10) + '0' as int) as char];
    if n < 10 then last else ShowNat(n / 10) + last
  }

  function ShowInt(n: int): (s: string) {
    if n < 0 then "-" + ShowNat(-n) else ShowNat(n)
  }

  /** The ASCII characters Python's `str.strip()` and `int()` treat as
      whitespace: tab, line feed, vertical tab, form feed, carriage return,
      the four separators 0x1C-0x1F and the space. */
  predicate IsSpace(c: char) {
    9 <= c as int <= 13 || 28 <= c as int <= 32
  }

  /** The text without its leading whitespace. */
  function StripLeft(s: string): (r: string)
    ensures |r| <= |s| && r == s[|s| - |r|..]
    ensures r == [] || !IsSpace(r[0])
    ensures forall k :: 0 <= k < |s| - |r| ==> IsSpace(s[k])
    decreases |s|
  {
    if s != [] && IsSpace(s[0]) then StripLeft(s[1..]) else s
  }

  /** The text without its trailing whitespace. */
  function StripRight(s: string): (r: string)
    ensures |r| <= |s| && r == s[..|r|]
    ensures r == [] || !IsSpace(r[|r| - 1])
    ensures forall k :: |r| <= k < |s| ==> IsSpace(s[k])
    decreases |s|
  {
    if s != [] && IsSpace(s[|s| - 1]) then StripRight(s[..|s| - 1]) else s
  }

  function Strip(s: string): string {
    StripRight(StripLeft(s))
  }

  /** Python's digit run with grouping: digits, where single underscores
      may separate two digits. */
  predicate IsNumeral(s: string) {
    && s != []
    && IsDigit(s[0]) && IsDigit(s[|s| - 1])
    && (forall k :: 0 <= k < |s| ==> IsDigit(s[k]) || s[k] == '_')
    && (forall k :: 0 <= k < |s| - 1 ==> s[k] == '_' ==> s[k + 1] != '_')
  }

  /** The digits of a numeral, underscores dropped. */
  function DropUnderscores(s: string): (r: string)
    ensures (forall k :: 0 <= k < |s| ==> IsDigit(s[k]) || s[k] == '_') ==> AllDigits(r)
    ensures AllDigits(s) ==> r == s
    decreases |s|
  {
    if s == [] then []
    else (if s[0] == '_' then [] else [s[0]]) + DropUnderscores(s[1..])
  }

  /** A stripped text as int() reads it: an optional sign and a numeral. */
  function ParseSigned(t: string): (r: Option<int>)
    ensures t == [] ==> r == None
  {
    if t == [] then None
    else if t[0] == '-' || t[0] == '+' then
      var body := t[1..];
      if IsNumeral(body) then
        var n: int := DigitsValue(DropUnderscores(body));
        Some(if t[0] == '-' then -n else n)
      else None
    else if IsNumeral(t) then Some(DigitsValue(DropUnderscores(t)))
    else None
  }

  /** Python's int() on a text: surrounding whitespace is ignored, then an
      optional sign and a numeral follow. */
  function ParseInt(s: string): (r: Option<int>)
    ensures Strip(s) == "" ==> r == None
  {
    ParseSigned(Strip(s))
  }

  lemma {:induction false} DigitsOfShowNat(n: nat)
    ensures DigitsValue(ShowNat(n)) == n
    decreases n
  {
    var last := [((n % 10) + '0' as int) as char];
    if n >= 10 {
      var s := ShowNat(n / 10) + last;
      assert s[..|s| - 1] == ShowNat(n / 10);
      DigitsOfShowNat(n / 10);
    }
  }

  /** Text that starts and ends with something other than whitespace is its
      own stripped form. */
  lemma StripUnspaced(s: string)
    requires s != [] && !IsSpace(s[0]) && !IsSpace(s[|s| - 1])
    ensures Strip(s) == s
  {
  }

  /** Writing an integer and parsing it back gives the integer. */
  lemma ParseShowRoundTrip(n: int)
    ensures ParseInt(ShowInt(n)) == Some(n)
  {
    var s := ShowInt(n);
    var digits := ShowNat(if n < 0 then -n else n);
    assert IsDigit(digits[0]) && IsDigit(digits[|digits| - 1]);
    StripUnspaced(s);
    DigitsOfShowNat(if n < 0 then -n else n);
    assert IsNumeral(digits);
    if n < 0 {
      assert s[0] == '-' && s[1..] == digits;
      assert ParseInt(s) == Some(-(DigitsValue(digits) as int));
    } else {
      assert s == digits;
      assert ParseInt(s) == Some(DigitsValue(digits));
    }
  }

  lemma StripLeftSpaced()
    ensures StripLeft(" 12\n") == "12\n"
  {
    var s := " 12\n";
    assert IsSpace(s[0]) && s[1..] == "12\n";
    assert !IsSpace("12\n"[0]);
  }

  lemma StripRightSpaced()
    ensures StripRight("12\n") == "12"
  {
    var s := "12\n";
    assert IsSpace(s[2]) && s[..2] == "12";
    assert !IsSpace("12"[1]);
  }

  lemma StripSpaced()
    ensures Strip(" 12\n") == "12"
  {
    StripLeftSpaced();
    StripRightSpaced();
  }

  lemma SignedTwelve()
    ensures ParseSigned("12") == Some(12)
  {
    var t := "12";
    assert IsNumeral(t);
    assert DropUnderscores(t) == t;
    assert t[..1] == "1" && "1"[..0] == "";
  }

  /** Whitespace around the number is ignored. */
  lemma ParseIntSpaces()
    ensures ParseInt(" 12\n") == Some(12)
  {
    StripSpaced();
    SignedTwelve();
  }

  lemma UngroupThousand()
    ensures DropUnderscores("1_000") == "1000"
  {
    var t := "1_000";
    assert t[1..] == "_000" && "_000"[1..] == "000";
    assert DropUnderscores("000") == "000";
  }

  lemma ThousandDigits()
    ensures DigitsValue("1000") == 1000
  {
    var d := "1000";
    assert d[..3] == "100" && "100"[..2] == "10" && "10"[..1] == "1" && "1"[..0] == "";
  }

  lemma SignedThousand()
    ensures ParseSigned("1_000") == Some(1000)
  {
    assert IsNumeral("1_000");
    UngroupThousand();
    ThousandDigits();
  }

  /** Single underscores between digits are accepted and dropped. */
  lemma ParseIntGrouped()
    ensures ParseInt("1_000") == Some(1000)
  {
    assert Strip("1_000") == "1_000" by { StripUnspaced("1_000"); }
    SignedThousand();
  }

  lemma RejectDoubled()
    ensures ParseInt("1__0") == None
  {
    var t := "1__0";
    assert Strip(t) == t by { StripUnspaced(t); }
    assert ParseSigned(t) == None by { assert t[1] == '_' && t[2] == '_'; }
  }

  lemma RejectLeading()
    ensures ParseInt("_1") == None
  {
    assert Strip("_1") == "_1" by { StripUnspaced("_1"); }
    assert ParseSigned("_1") == None by { assert !IsDigit("_1"[0]); }
  }

  lemma RejectTrailing()
    ensures ParseInt("1_") == None
  {
    assert Strip("1_") == "1_" by { StripUnspaced("1_"); }
    assert ParseSigned("1_") == None by { assert !IsDigit("1_"[1]); }
  }

  lemma RejectSignSpace()
    ensures ParseInt("- 5") == None
  {
    var t := "- 5";
    assert Strip(t) == t by { StripUnspaced(t); }
    assert ParseSigned(t) == None by { assert t[0] == '-' && t[1..] == " 5" && !IsDigit(" 5"[0]); }
  }

  lemma RejectBlank()
    ensures ParseInt("  ") == None
  {
    var b := "  ";
    assert StripLeft(b) == "" by {
      assert IsSpace(b[0]) && b[1..] == " " && IsSpace(" "[0]) && " "[1..] == "";
    }
  }

  lemma ParseIntZero()
    ensures ParseInt("0") == Some(0)
  {
    assert Strip("0") == "0" by { StripUnspaced("0"); }
    assert ParseSigned("0") == Some(0) by {
      assert IsNumeral("0");
      assert DropUnderscores("0") == "0";
      assert "0"[..0] == "";
    }
  }

  /** A leading, trailing or doubled underscore, a sign followed by a
      space, and blank text are rejected. */
  lemma ParseIntRejects()
    ensures ParseInt("1__0") == None
    ensures ParseInt("_1") == None
    ensures ParseInt("1_") == None
    ensures ParseInt("- 5") == None
    ensures ParseInt("  ") == None
  {
    RejectDoubled();
    RejectLeading();
    RejectTrailing();
    RejectSignSpace();
    RejectBlank();
  }

  /** Python's int(value) as the engine applies it to record fields. */
  function ToInt(v: Value): (r: Result<int>)
    ensures v.Int? ==> r == Ok(v.i)
    ensures v.Dec? ==> r.Ok? && (IsWhole(v.d) ==> r.value as real == v.d)
    ensures v.Dec? && 0.0 <= v.d ==> r.value as real <= v.d < r.value as real + 1.0
    ensures v.Dec? && v.d < 0.0 ==> r.value as real - 1.0 < v.d <= r.value as real
    ensures v.Text? ==> (r.Ok? <==> ParseInt(v.s).Some?) && (r.Ok? ==> r.value == ParseInt(v.s).value)
    ensures v.Null? ==> r == Err(TypeError)
  {
    match v
    case Int(i) => Ok(i)
    case Dec(d) => TruncateWhole(d); Ok(Truncate(d))
    case Text(s) => if ParseInt(s).Some? then Ok(ParseInt(s).value) else Err(NotANumber)
    case Null => Err(TypeError)
  }

  lemma TruncateWhole(d: real)
    ensures IsWhole(d) ==> Truncate(d) as real == d
  {
    if IsWhole(d) && d < 0.0 {
      assert (-d).Floor == -d.Floor;
    }
  }

  /** Python's decimal.Decimal(value) on a record field (texts: integer forms only). */
  function ToDecimal(v: Value): (r: Result<real>)
    ensures v.Int? ==> r == Ok(v.i as real)
    ensures v.Dec? ==> r == Ok(v.d)
    ensures v.Text? ==> (r.Ok? <==> ParseInt(v.s).Some?) && (r.Ok? ==> r.value == ParseInt(v.s).value as real)
    ensures v.Null? ==> r == Err(TypeError)
  {
    match v
    case Int(i) => Ok(i as real)
    case Dec(d) => Ok(d)
    case Text(s) => if ParseInt(s).Some? then Ok(ParseInt(s).value as real) else Err(NotANumber)
    case Null => Err(TypeError)
  }

  /** A percent the engine stores verbatim and later compares with, and
      subtracts from, integers: only whole numbers take part in that
      arithmetic; anything else raises there. */
  function VerbatimPercent(v: Value): (r: Result<int>)
    ensures r.Ok? <==> v.Int? || (v.Dec? && IsWhole(v.d))
    ensures r.Ok? ==> ToInt(v) == r && ToDecimal(v) == Ok(r.value as real)
  {
    match v
    case Int(i) => Ok(i)
    case Dec(d) => if IsWhole(d) then Ok(d.Floor) else Err(TypeError)
    case _ => Err(TypeError)
  }

  /** int() and Decimal() accept the same fields, and int() is Decimal()
      truncated toward zero. */
  lemma IntOfDecimal(v: Value)
    ensures ToInt(v).Ok? <==> ToDecimal(v).Ok?
    ensures ToInt(v).Ok? ==> ToInt(v).value == Truncate(ToDecimal(v).value)
  {
  }
}
