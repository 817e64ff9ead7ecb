/** Keyword arguments of the link commands of the test tool, and the way from a typed line to a link. */
module LinkArgs {
  import opened Options
  import opened Tokenizer

  // ---------- numbers ----------

  datatype Number = Value(n: int) | NotANumber | OutOfRange

  predicate IsInt32(n: int) { -0x8000_0000 <= n < 0x8000_0000 }

  predicate IsDigit(c: char) { '0' <= c <= '9' }

  function SkipBlanks(s: string): string {
    if s != "" && IsSpace(s[0]) then SkipBlanks(s[1..]) else s
  }

  function DigitRun(s: string): string {
    if s != "" && IsDigit(s[0]) then [s[0]] + DigitRun(s[1..]) else ""
  }

  function DigitsValue(s: string): int {
    if s == "" then 0 else 10 * DigitsValue(s[..|s| - 1]) + (s[|s| - 1] as int - '0' as int)
  }

  /** `std::stoi`: leading white space, an optional sign, digits; what follows them is ignored. */
  function Stoi(s: string): Number {
    var t := SkipBlanks(s);
    var negative := t != "" && t[0] == '-';
    var digits := DigitRun(if t != "" && (t[0] == '-' || t[0] == '+') then t[1..] else t);
    var n := if negative then -DigitsValue(digits) else DigitsValue(digits);
    if digits == "" then NotANumber else if IsInt32(n) then Value(n) else OutOfRange
  }

  function Digit(d: nat): char
    requires d < 10
  {
    ('0' as int + d) as char
  }

  function Digits(n: nat): string {
    if n < 10 then [Digit(n)] else Digits(n / 10) + [Digit(n % 10)]
  }

  function Decimal(n: int): string {
    if n < 0 then "-" + Digits(-n) else Digits(n)
  }

  // ---------- the loop ----------

  /** The attributes a command line can set. */
  datatype Link = Link(name: Option<string>, ifindex: Option<int>, kind: Option<string>)

  /** How parsing ends: normally, by `exit(1)` on an argument, or with the exception of `stoi`. */
  datatype Outcome = Parsed | Unexpected(arg: string) | Thrown(number: Number)

  function Parse(args: seq<string>, link: Link): (Outcome, Link) {
    if args == [] then (Parsed, link)
    else if args[0] == "name" && 1 < |args| then Parse(args[2..], link.(name := Some(args[1])))
    else if args[0] == "ifindex" && 1 < |args| then
      var number := Stoi(args[1]);
      if number.Value? then Parse(args[2..], link.(ifindex := Some(number.n)))
      else (Thrown(number), link)
    else if args[0] == "type" && 1 < |args| then Parse(args[2..], link.(kind := Some(args[1])))
    else (Unexpected(args[0]), link)
  }

  class RouteLink {
    var name: Option<string>
    var ifindex: Option<int>
    var kind: Option<string>

    function Attributes(): Link
      reads this
    {
      Link(name, ifindex, kind)
    }

    constructor ()
      ensures Attributes() == Link(None, None, None)
    {
      name, ifindex, kind := None, None, None;
    }
  }

  method ParseLinkArgs(link: RouteLink, args: seq<string>) returns (outcome: Outcome)
    modifies link
    ensures (outcome, link.Attributes()) == Parse(args, old(link.Attributes()))
  {
    var i := 0;
    while i < |args|
      invariant 0 <= i <= |args|
      invariant Parse(args[i..], link.Attributes()) == Parse(args, old(link.Attributes()))
    {
      assert args[i..][0] == args[i];
      assert i + 1 < |args| ==> args[i..][1] == args[i + 1] && args[i..][2..] == args[i + 2..];
      if args[i] == "name" && i + 1 < |args| {
        i := i + 1;
        link.name := Some(args[i]);
      } else if args[i] == "ifindex" && i + 1 < |args| {
        i := i + 1;
        var number := Stoi(args[i]);
        if !number.Value? {
          return Thrown(number);
        }
        link.ifindex := Some(number.n);
      } else if args[i] == "type" && i + 1 < |args| {
        i := i + 1;
        link.kind := Some(args[i]);
      } else {
        return Unexpected(args[i]);
      }
      i := i + 1;
    }
    return Parsed;
  }

  // ---------- specifications of links ----------

  datatype Setting = Name(name: string) | Ifindex(n: int) | Type(kind: string)

  function Set(s: Setting, link: Link): Link {
    match s
    case Name(x) => link.(name := Some(x))
    case Ifindex(n) => link.(ifindex := Some(n))
    case Type(x) => link.(kind := Some(x))
  }

  function Apply(settings: seq<Setting>, link: Link): Link {
    if settings == [] then link else Apply(settings[1..], Set(settings[0], link))
  }

  function Keyword(s: Setting): string {
    match s
    case Name(_) => "name"
    case Ifindex(_) => "ifindex"
    case Type(_) => "type"
  }

  function Operand(s: Setting): string {
    match s
    case Name(x) => x
    case Ifindex(n) => Decimal(n)
    case Type(x) => x
  }

  function Render(settings: seq<Setting>): seq<string> {
    if settings == [] then []
    else [Keyword(settings[0]), Operand(settings[0])] + Render(settings[1..])
  }

  /** An argument list says a list of settings, numbers being written in any way `stoi` reads. */
  predicate Says(args: seq<string>, settings: seq<Setting>) {
    if settings == [] then args == []
    else
      && 2 <= |args|
      && (match settings[0]
          case Name(x) => args[0] == "name" && args[1] == x
          case Ifindex(n) => args[0] == "ifindex" && Stoi(args[1]) == Value(n)
          case Type(x) => args[0] == "type" && args[1] == x)
      && Says(args[2..], settings[1..])
  }

  /** Any list of settings in any order, values that are themselves keywords included. */
  lemma {:induction false} ParseSaid(args: seq<string>, settings: seq<Setting>, link: Link)
    requires Says(args, settings)
    ensures Parse(args, link) == (Parsed, Apply(settings, link))
    decreases |settings|
  {
    if settings != [] {
      ParseSaid(args[2..], settings[1..], Set(settings[0], link));
    }
  }

  lemma {:induction false} ParsedIsSaid(args: seq<string>, link: Link) returns (settings: seq<Setting>)
    requires Parse(args, link).0 == Parsed
    ensures Says(args, settings)
    decreases |args|
  {
    if args == [] {
      settings := [];
    } else {
      var s :=
        if args[0] == "name" then Name(args[1])
        else if args[0] == "ifindex" then Ifindex(Stoi(args[1]).n)
        else Type(args[1]);
      var rest := ParsedIsSaid(args[2..], Set(s, link));
      settings := [s] + rest;
      assert settings[1..] == rest;
    }
  }

  ghost predicate SaysSomething(args: seq<string>) {
    exists settings :: Says(args, settings)
  }

  /** The parser accepts exactly the argument lists that say something. */
  lemma AcceptedIff(args: seq<string>, link: Link)
    ensures Parse(args, link).0 == Parsed <==> SaysSomething(args)
  {
    if Parse(args, link).0 == Parsed {
      var settings := ParsedIsSaid(args, link);
      assert SaysSomething(args);
    }
    if SaysSomething(args) {
      var settings :| Says(args, settings);
      ParseSaid(args, settings, link);
    }
  }

  /** How far parsing gets: `said` is spelled by the first `n` arguments and set.  Then the arguments are
      over, or the next is no keyword or stands without a value, or it is `ifindex` with a value that is not
      an `int`. */
  ghost predicate GetsTo(args: seq<string>, n: nat, said: seq<Setting>, outcome: Outcome) {
    && n <= |args| && Says(args[..n], said)
    && match outcome
       case Parsed => n == |args|
       case Unexpected(arg) =>
         && n < |args| && arg == args[n]
         && (n + 1 == |args| || (arg != "name" && arg != "ifindex" && arg != "type"))
       case Thrown(number) =>
         n + 1 < |args| && args[n] == "ifindex" && number == Stoi(args[n + 1]) && !number.Value?
  }

  lemma GetsToNext(args: seq<string>, s: Setting, n: nat, said: seq<Setting>, outcome: Outcome)
    requires 2 <= |args| && GetsTo(args[2..], n, said, outcome)
    requires Says(args[..2], [s])
    ensures GetsTo(args, n + 2, [s] + said, outcome)
  {
    assert args[..n + 2][2..] == args[2..][..n];
    assert ([s] + said)[1..] == said;
  }

  /** The outcome for every argument list: which argument stops it and how, and that what was set before
      stays set. */
  lemma {:induction false} OutcomeIs(args: seq<string>, link: Link) returns (n: nat, said: seq<Setting>)
    ensures GetsTo(args, n, said, Parse(args, link).0)
    ensures LastSettings(said, link, Parse(args, link).1)
  {
    n, said := StopsAt(args, link);
    LastWins(said, link);
  }

  lemma {:induction false} StopsAt(args: seq<string>, link: Link) returns (n: nat, said: seq<Setting>)
    ensures GetsTo(args, n, said, Parse(args, link).0)
    ensures Parse(args, link).1 == Apply(said, link)
    decreases |args|
  {
    if 2 <= |args| && FirstSays(args).Some? {
      var s := FirstSays(args).value;
      var m, rest := StopsAt(args[2..], Set(s, link));
      GetsToNext(args, s, m, rest, Parse(args, link).0);
      n, said := m + 2, [s] + rest;
      assert said[1..] == rest;
    } else {
      n, said := 0, [];
    }
  }

  /** The setting the first two arguments spell, if they do. */
  function FirstSays(args: seq<string>): (r: Option<Setting>)
    requires 2 <= |args|
    ensures r.Some? ==> Says(args[..2], [r.value])
  {
    if args[0] == "name" then Some(Name(args[1]))
    else if args[0] == "ifindex" then (if Stoi(args[1]).Value? then Some(Ifindex(Stoi(args[1]).n)) else None)
    else if args[0] == "type" then Some(Type(args[1]))
    else None
  }

  /** Parsing can get nowhere else: prefix and outcome are determined. */
  lemma {:induction false} GetsToOnce(args: seq<string>, n: nat, said: seq<Setting>, outcome: Outcome, link: Link)
    requires GetsTo(args, n, said, outcome)
    ensures Parse(args, link) == (outcome, Apply(said, link))
    decreases |args|
  {
    if said != [] {
      assert args[..n][2..] == args[2..][..n - 2];
      GetsToOnce(args[2..], n - 2, said[1..], outcome, Set(said[0], link));
    }
  }

  /** A complete argument list followed by another is read as the one and then the other. */
  lemma {:induction false} ParseInTwo(a: seq<string>, b: seq<string>, link: Link)
    requires Parse(a, link).0 == Parsed
    ensures Parse(a + b, link) == Parse(b, Parse(a, link).1)
    decreases |a|
  {
    if a == [] {
      assert a + b == b;
    } else {
      assert (a + b)[0] == a[0] && (a + b)[1] == a[1] && (a + b)[2..] == a[2..] + b;
      var next := if a[0] == "name" then link.(name := Some(a[1]))
                  else if a[0] == "ifindex" then link.(ifindex := Some(Stoi(a[1]).n))
                  else link.(kind := Some(a[1]));
      ParseInTwo(a[2..], b, next);
    }
  }

  // ---------- the last setting of an attribute wins ----------

  function NameIn(s: Setting): Option<string> {
    if s.Name? then Some(s.name) else None
  }

  function IfindexIn(s: Setting): Option<int> {
    if s.Ifindex? then Some(s.n) else None
  }

  function TypeIn(s: Setting): Option<string> {
    if s.Type? then Some(s.kind) else None
  }

  /** `after` is what the last setting that gives a value gives, or `before` when none gives any. */
  ghost predicate LastGiven<T>(settings: seq<Setting>, gives: Setting -> Option<T>,
                               before: Option<T>, after: Option<T>)
  {
    if forall i :: 0 <= i < |settings| ==> gives(settings[i]).None? then after == before
    else exists i :: 0 <= i < |settings| && gives(settings[i]).Some? && after == gives(settings[i])
                     && forall j :: i < j < |settings| ==> gives(settings[j]).None?
  }

  /** Each attribute has its last setting or its old value. */
  ghost predicate LastSettings(settings: seq<Setting>, before: Link, after: Link) {
    && LastGiven(settings, NameIn, before.name, after.name)
    && LastGiven(settings, IfindexIn, before.ifindex, after.ifindex)
    && LastGiven(settings, TypeIn, before.kind, after.kind)
  }

  lemma LastGivenNext<T>(settings: seq<Setting>, gives: Setting -> Option<T>, before: Option<T>, mid: Option<T>)
    requires settings != [] && LastGiven(settings[..|settings| - 1], gives, before, mid)
    ensures var n := |settings| - 1;
            LastGiven(settings, gives, before, if gives(settings[n]).Some? then gives(settings[n]) else mid)
  {
    var n := |settings| - 1;
    assert forall i :: 0 <= i < n ==> settings[..n][i] == settings[i];
    if gives(settings[n]).None? && !(forall i :: 0 <= i < n ==> gives(settings[i]).None?) {
      var i :| 0 <= i < n && gives(settings[..n][i]).Some? && mid == gives(settings[..n][i])
               && forall j :: i < j < n ==> gives(settings[..n][j]).None?;
      assert gives(settings[i]).Some? && forall j :: i < j < |settings| ==> gives(settings[j]).None?;
    }
  }

  lemma {:induction false} ApplyInTwo(a: seq<Setting>, b: seq<Setting>, link: Link)
    ensures Apply(a + b, link) == Apply(b, Apply(a, link))
    decreases |a|
  {
    if a == [] {
      assert a + b == b;
    } else {
      assert (a + b)[1..] == a[1..] + b;
      ApplyInTwo(a[1..], b, Set(a[0], link));
    }
  }

  lemma {:induction false} LastWins(settings: seq<Setting>, link: Link)
    ensures LastSettings(settings, link, Apply(settings, link))
    decreases |settings|
  {
    if settings != [] {
      var n := |settings| - 1;
      var mid := Apply(settings[..n], link);
      LastWins(settings[..n], link);
      assert settings == settings[..n] + [settings[n]];
      ApplyInTwo(settings[..n], [settings[n]], link);
      assert [settings[n]][1..] == [];
      LastGivenNext(settings, NameIn, link.name, mid.name);
      LastGivenNext(settings, IfindexIn, link.ifindex, mid.ifindex);
      LastGivenNext(settings, TypeIn, link.kind, mid.kind);
    }
  }

  // ---------- rendering and reading back ----------

  lemma {:induction false} DigitsAreDigits(n: nat)
    ensures Digits(n) != "" && forall i :: 0 <= i < |Digits(n)| ==> IsDigit(Digits(n)[i])
  {
    if 10 <= n {
      DigitsAreDigits(n / 10);
    }
  }

  lemma {:induction false} DigitsValueOfDigits(n: nat)
    ensures DigitsValue(Digits(n)) == n
  {
    if 10 <= n {
      DigitsValueOfDigits(n / 10);
      assert Digits(n)[..|Digits(n)| - 1] == Digits(n / 10);
    } else {
      assert DigitsValue("") == 0;
      assert [Digit(n)][..0] == "";
    }
  }

  /** How a text is read as a number: white space, a sign or none, digits, and anything else behind. */
  ghost predicate Numeral(s: string, blanks: string, sign: string, digits: string, rest: string) {
    && s == blanks + sign + digits + rest
    && Blank(blanks) && (sign == "" || sign == "-" || sign == "+")
    && digits != "" && (forall c :: c in digits ==> IsDigit(c))
    && (rest != "" ==> !IsDigit(rest[0]))
  }

  lemma {:induction false} SkipBlanksOf(blanks: string, s: string)
    requires Blank(blanks) && (s != "" ==> !IsSpace(s[0]))
    ensures SkipBlanks(blanks + s) == s
  {
    if blanks == "" {
      assert blanks + s == s;
    } else {
      assert (blanks + s)[1..] == blanks[1..] + s;
      SkipBlanksOf(blanks[1..], s);
    }
  }

  lemma {:induction false} DigitRunOf(digits: string, rest: string)
    requires (forall c :: c in digits ==> IsDigit(c)) && (rest != "" ==> !IsDigit(rest[0]))
    ensures DigitRun(digits + rest) == digits
  {
    if digits == "" {
      assert digits + rest == rest;
    } else {
      assert (digits + rest)[1..] == digits[1..] + rest;
      DigitRunOf(digits[1..], rest);
    }
  }

  lemma NumeralIsRead(s: string, blanks: string, sign: string, digits: string, rest: string)
    requires Numeral(s, blanks, sign, digits, rest)
    ensures var n := if sign == "-" then -DigitsValue(digits) else DigitsValue(digits);
            Stoi(s) == if IsInt32(n) then Value(n) else OutOfRange
  {
    var t := sign + (digits + rest);
    assert IsDigit(digits[0]) && t[0] == if sign == "" then digits[0] else sign[0];
    assert s == blanks + t;
    SkipBlanksOf(blanks, t);
    assert sign != "" ==> t[1..] == digits + rest;
    assert sign == "" ==> t == digits + rest;
    DigitRunOf(digits, rest);
  }

  lemma {:induction false} BlanksSkipped(s: string) returns (blanks: string)
    ensures Blank(blanks) && s == blanks + SkipBlanks(s)
  {
    blanks := "";
    if s != "" && IsSpace(s[0]) {
      var more := BlanksSkipped(s[1..]);
      blanks := [s[0]] + more;
    }
  }

  lemma {:induction false} RestOfRun(s: string) returns (rest: string)
    ensures s == DigitRun(s) + rest && (rest != "" ==> !IsDigit(rest[0]))
    ensures forall c :: c in DigitRun(s) ==> IsDigit(c)
  {
    rest := s;
    if s != "" && IsDigit(s[0]) {
      rest := RestOfRun(s[1..]);
    }
  }

  /** An optional sign and the digits behind it. */
  lemma SignedRun(t: string) returns (sign: string, rest: string)
    ensures sign == (if t != "" && (t[0] == '-' || t[0] == '+') then [t[0]] else "")
    ensures var digits := DigitRun(t[|sign|..]);
            && t == sign + (digits + rest) && (rest != "" ==> !IsDigit(rest[0]))
            && forall c :: c in digits ==> IsDigit(c)
  {
    sign := if t != "" && (t[0] == '-' || t[0] == '+') then [t[0]] else "";
    rest := RestOfRun(t[|sign|..]);
    assert t == sign + t[|sign|..];
  }

  lemma NumeralIn(s: string) returns (blanks: string, sign: string, digits: string, rest: string)
    requires Stoi(s) != NotANumber
    ensures Numeral(s, blanks, sign, digits, rest)
  {
    blanks := BlanksSkipped(s);
    var t := SkipBlanks(s);
    sign, rest := SignedRun(t);
    digits := DigitRun(t[|sign|..]);
    assert sign == "" ==> t[|sign|..] == t;
    Parts(blanks, sign, digits, rest);
  }

  lemma Parts(a: string, b: string, c: string, d: string)
    ensures a + b + c + d == a + (b + (c + d))
  {
  }

  /** `stoi` finds no number exactly in texts that are not numerals. */
  lemma NotANumberIff(s: string)
    ensures Stoi(s) != NotANumber <==>
            exists blanks, sign, digits, rest :: Numeral(s, blanks, sign, digits, rest)
  {
    if Stoi(s) != NotANumber {
      var blanks, sign, digits, rest := NumeralIn(s);
    } else if blanks, sign, digits, rest :| Numeral(s, blanks, sign, digits, rest) {
      NumeralIsRead(s, blanks, sign, digits, rest);
    }
  }

  lemma DecimalIsNumeral(sign: string, digits: string)
    requires sign == "" || sign == "-"
    requires digits != "" && forall i :: 0 <= i < |digits| ==> IsDigit(digits[i])
    ensures Numeral(sign + digits, "", sign, digits, "")
  {
    assert "" + sign + digits + "" == sign + digits;
  }

  lemma StoiOfDecimal(n: int)
    requires IsInt32(n)
    ensures Stoi(Decimal(n)) == Value(n)
  {
    var m, sign := if n < 0 then -n else n, if n < 0 then "-" else "";
    DigitsAreDigits(m);
    DigitsValueOfDigits(m);
    DecimalIsNumeral(sign, Digits(m));
    assert Decimal(n) == sign + Digits(m);
    NumeralIsRead(Decimal(n), "", sign, Digits(m), "");
  }

  lemma DecimalIsWord(n: int)
    ensures IsWord(Decimal(n))
  {
    DigitsAreDigits(if n < 0 then -n else n);
  }

  /** Values that can be typed: an `int`, or text that is one word. */
  predicate Typeable(s: Setting) {
    match s
    case Name(x) => IsWord(x)
    case Ifindex(n) => IsInt32(n)
    case Type(x) => IsWord(x)
  }

  lemma RenderedIsWords(s: Setting)
    requires Typeable(s)
    ensures IsWord(Keyword(s)) && IsWord(Operand(s))
  {
    if s.Ifindex? {
      DecimalIsWord(s.n);
    }
  }

  lemma {:induction false} RenderedIsSaid(settings: seq<Setting>)
    requires forall i :: 0 <= i < |settings| ==> Typeable(settings[i])
    ensures Says(Render(settings), settings)
    ensures forall i :: 0 <= i < |Render(settings)| ==> IsWord(Render(settings)[i])
  {
    if settings != [] {
      RenderedIsSaid(settings[1..]);
      var s := settings[0];
      if s.Ifindex? {
        StoiOfDecimal(s.n);
      }
      RenderedIsWords(s);
      assert Render(settings)[2..] == Render(settings[1..]);
    }
  }

  /** A command with any link specification, typed with single spaces. */
  ghost predicate IsTyped(line: seq<char>, command: string, settings: seq<Setting>) {
    && IsWord(command) && (forall i :: 0 <= i < |settings| ==> Typeable(settings[i]))
    && exists rest :: line == Join([command] + Render(settings)) + ['\0'] + rest
  }

  lemma TypedSpecificationIsRead(line: seq<char>, command: string, settings: seq<Setting>, link: Link)
    requires IsTyped(line, command, settings)
    ensures var words := Words(Text(line));
            && words != [] && words[0] == command
            && Parse(words[1..], link).0 == Parsed && LastSettings(settings, link, Parse(words[1..], link).1)
  {
    RenderedIsSaid(settings);
    var words := [command] + Render(settings);
    var rest :| line == Join(words) + ['\0'] + rest;
    TypedWordsComeBack(words, rest);
    assert words[1..] == Render(settings);
    ParseSaid(Render(settings), settings, link);
    LastWins(settings, link);
  }

  /** From the keyboard to the link, as in `main` and the link commands: a line is split, and the arguments
      are parsed.  A line that is a command with a link specification is read as that command, and each
      attribute gets its last setting. */
  method ReadLinkCommand(line: seq<char>, link: RouteLink)
    returns (command: Option<string>, outcome: Outcome)
    requires '\0' in line
    modifies link
    ensures forall typed, settings :: IsTyped(line, typed, settings) ==>
              && command == Some(typed) && outcome == Parsed
              && LastSettings(settings, old(link.Attributes()), link.Attributes())
  {
    var args;
    command, args := Tokenize(line);
    outcome := ParseLinkArgs(link, args);
    forall typed, settings | IsTyped(line, typed, settings)
      ensures command == Some(typed) && outcome == Parsed
      ensures LastSettings(settings, old(link.Attributes()), link.Attributes())
    {
      TypedSpecificationIsRead(line, typed, settings, old(link.Attributes()));
      assert Words(Text(line))[1..] == args;
    }
  }
}
