/** The reply to PASV, printed by the server and parsed by the client (section 4.1.2 of RFC 959). */
module Pasv {
  import opened Wrappers

  // ---------- strings ----------

  function Replace(s: string, a: char, b: char): (t: string)
    ensures |t| == |s|
  {
    seq(|s|, i requires 0 <= i < |s| => if s[i] == a then b else s[i])
  }

  /** -1 if there is none. */
  function LastIndex(s: string, c: char): (i: int)
    ensures -1 <= i < |s|
    ensures i >= 0 ==> s[i] == c
    ensures forall k :: i < k < |s| ==> s[k] != c
  {
    if s == [] then -1
    else if s[|s| - 1] == c then |s| - 1
    else LastIndex(s[..|s| - 1], c)
  }

  function Split(s: string, c: char): (parts: seq<string>)
    ensures |parts| > 0
  {
    if s == [] then [[]]
    else
      var rest := Split(s[1..], c);
      if s[0] == c then [[]] + rest else [[s[0]] + rest[0]] + rest[1..]
  }

  function Join(parts: seq<string>, c: char): string
    requires parts != []
  {
    if |parts| == 1 then parts[0] else parts[0] + [c] + Join(parts[1..], c)
  }

  function Count(s: string, c: char): nat {
    if s == [] then 0 else (if s[0] == c then 1 else 0) + Count(s[1..], c)
  }

  function Digit(d: nat): char
    requires d < 10
  {
    '0' + d as char
  }

  predicate IsDigit(c: char) { '0' <= c <= '9' }

  function DigitValue(c: char): nat
    requires IsDigit(c)
  {
    c as int - '0' as int
  }

  function Decimal(n: nat): (s: string)
    ensures s != [] && forall i :: 0 <= i < |s| ==> IsDigit(s[i])
  {
    if n < 10 then [Digit(n)] else Decimal(n / 10) + [Digit(n % 10)]
  }

  function DecimalInt(n: int): string {
    if n < 0 then "-" + Decimal(-n) else Decimal(n)
  }

  function Value(digits: string): nat
    requires forall i :: 0 <= i < |digits| ==> IsDigit(digits[i])
  {
    if digits == [] then 0
    else Value(digits[..|digits| - 1]) * 10 + DigitValue(digits[|digits| - 1])
  }

  function DigitPrefix(s: string): (d: string)
    ensures forall i :: 0 <= i < |d| ==> IsDigit(d[i])
  {
    if s == [] || !IsDigit(s[0]) then [] else [s[0]] + DigitPrefix(s[1..])
  }

  function SkipSpaces(s: string): string {
    if s != [] && s[0] == ' ' then SkipSpaces(s[1..]) else s
  }

  /** A decimal number at the start of `s`; 0 if there is none, for the source ignores the error. */
  function ScanInt(s: string): int {
    var t := SkipSpaces(s);
    if t != [] && t[0] == '-' then 0 - Value(DigitPrefix(t[1..]))
    else if t != [] && t[0] == '+' then Value(DigitPrefix(t[1..]))
    else Value(DigitPrefix(t))
  }

  // ---------- the server's text and the client's parser ----------

  const OPENING := "Entering Passive Mode ("

  function ClosingPart(port: nat): string {
    "," + Decimal(port / 256) + "," + Decimal(port % 256) + ")."
  }

  /** The text behind the reply code. */
  function Reply(ip: string, port: nat): string {
    OPENING + Replace(ip, '.', ',') + ClosingPart(port)
  }

  datatype Error = NoParentheses | WrongFieldCount | BadBounds

  /** What is between the last parentheses. */
  function Inside(msg: string): Result<string, Error> {
    var s, e := LastIndex(msg, '('), LastIndex(msg, ')');
    if s < 0 || e < 0 then Err(NoParentheses)
    else if e < s + 1 then Err(BadBounds)
    else Ok(msg[s + 1..e])
  }

  function ParseFields(parts: seq<string>): Result<string, Error> {
    if |parts| != 6 then Err(WrongFieldCount)
    else Ok(Join(parts[..4], '.') + ":" + DecimalInt(ScanInt(parts[4]) * 256 + ScanInt(parts[5])))
  }

  /** BadBounds stands for the panic of a slice whose bounds are out of order. */
  function ParsePasv(msg: string): Result<string, Error> {
    match Inside(msg)
    case Err(e) => Err(e)
    case Ok(fields) => ParseFields(Split(fields, ','))
  }

  // ---------- proofs ----------

  lemma {:induction false} ValueOfDecimal(n: nat)
    ensures Value(Decimal(n)) == n
  {
    if n >= 10 {
      ValueOfDecimal(n / 10);
      assert Decimal(n)[..|Decimal(n)| - 1] == Decimal(n / 10);
    }
  }

  lemma {:induction false} AllDigits(s: string)
    requires forall i :: 0 <= i < |s| ==> IsDigit(s[i])
    ensures DigitPrefix(s) == s
  {
    if s != [] {
      AllDigits(s[1..]);
    }
  }

  lemma ScanDecimal(n: nat)
    ensures ScanInt(Decimal(n)) == n
  {
    var s := Decimal(n);
    assert IsDigit(s[0]);
    AllDigits(s);
    ValueOfDecimal(n);
  }

  lemma {:induction false} SplitCount(s: string, c: char)
    ensures |Split(s, c)| == Count(s, c) + 1
  {
    if s != [] {
      SplitCount(s[1..], c);
    }
  }

  lemma {:induction false} NoSeparator(s: string, c: char)
    requires c !in s
    ensures Split(s, c) == [s] && Count(s, c) == 0
  {
    if s != [] {
      assert s[0] in s;
      NoSeparator(s[1..], c);
      assert [s[0]] + s[1..] == s;
    }
  }

  lemma {:induction false} SplitAround(a: string, c: char, b: string)
    ensures Split(a + [c] + b, c) == Split(a, c) + Split(b, c)
  {
    if a == [] {
      assert (a + [c] + b)[1..] == b;
    } else {
      assert (a + [c] + b)[1..] == a[1..] + [c] + b;
      SplitAround(a[1..], c, b);
    }
  }

  /** Joining what was split only replaces the separator. */
  lemma {:induction false} JoinSplit(s: string, c: char, d: char)
    ensures Join(Split(s, c), d) == Replace(s, c, d)
  {
    if s != [] {
      JoinSplit(s[1..], c, d);
      var rest := Split(s[1..], c);
      assert Replace(s, c, d) == [if s[0] == c then d else s[0]] + Replace(s[1..], c, d);
      if s[0] == c {
        assert ([[]] + rest)[1..] == rest;
      } else {
        var parts := [[s[0]] + rest[0]] + rest[1..];
        assert parts[1..] == rest[1..];
        assert |rest| > 1 ==> Join(parts, d) == [s[0]] + (rest[0] + [d] + Join(rest[1..], d));
      }
    }
  }

  lemma {:induction false} CountReplaced(s: string)
    ensures Count(Replace(s, '.', ','), ',') == Count(s, '.') + Count(s, ',')
  {
    if s != [] {
      CountReplaced(s[1..]);
      assert Replace(s, '.', ',')[1..] == Replace(s[1..], '.', ',');
    }
  }

  lemma {:induction false} CountZero(s: string, c: char)
    ensures Count(s, c) == 0 <==> c !in s
  {
    if s != [] {
      CountZero(s[1..], c);
      assert s == [s[0]] + s[1..];
    }
  }

  /** The fields between the parentheses, if `host` stands before the two numbers. */
  lemma FieldsOf(host: string, p1: string, p2: string)
    requires ',' !in p1 && ',' !in p2
    ensures Split(host + "," + p1 + "," + p2, ',') == Split(host, ',') + [p1, p2]
  {
    NoSeparator(p1, ',');
    NoSeparator(p2, ',');
    SplitAround(p1, ',', p2);
    SplitAround(host, ',', p1 + "," + p2);
    assert host + "," + (p1 + "," + p2) == host + "," + p1 + "," + p2;
  }

  lemma DecimalHasOnlyDigits(n: nat, c: char)
    requires !IsDigit(c)
    ensures c !in Decimal(n)
  {
  }

  lemma LastIndexIs(s: string, c: char, i: int)
    requires -1 <= i < |s| && (i >= 0 ==> s[i] == c)
    requires forall k :: i < k < |s| ==> s[k] != c
    ensures LastIndex(s, c) == i
  {
    if i != LastIndex(s, c) {
      assert false;
    }
  }

  lemma LastIndexOfConcat(a: string, b: string, c: char)
    ensures LastIndex(a + b, c) == if LastIndex(b, c) >= 0 then |a| + LastIndex(b, c) else LastIndex(a, c)
  {
    var i := if LastIndex(b, c) >= 0 then |a| + LastIndex(b, c) else LastIndex(a, c);
    forall k | i < k < |a + b| ensures (a + b)[k] != c {
      assert (a + b)[k] == if k < |a| then a[k] else b[k - |a|];
    }
    LastIndexIs(a + b, c, i);
  }

  lemma ClosingPartHasNoOpening(port: nat)
    ensures LastIndex(ClosingPart(port), '(') == -1
  {
    var p1, p2 := Decimal(port / 256), Decimal(port % 256);
    LastIndexOfConcat("," + p1 + "," + p2, ").", '(');
    LastIndexOfConcat("," + p1 + ",", p2, '(');
    LastIndexOfConcat("," + p1, ",", '(');
    LastIndexOfConcat(",", p1, '(');
  }

  /** The parser's parentheses: the last "(" of the address, or else the one before it; and the last ")" of all. */
  lemma Parentheses(ip: string, port: nat)
    ensures LastIndex(Reply(ip, port), '(') == |OPENING| + LastIndex(ip, '(')
    ensures LastIndex(Reply(ip, port), ')') == |Reply(ip, port)| - 2
  {
    var host := Replace(ip, '.', ',');
    LastIndexOfConcat(OPENING + host, ClosingPart(port), '(');
    ClosingPartHasNoOpening(port);
    LastIndexOfConcat(OPENING, host, '(');
    LastIndexIs(OPENING, '(', |OPENING| - 1);
    LastIndexIs(host, '(', LastIndex(ip, '('));
    var msg := Reply(ip, port);
    LastIndexIs(msg, ')', |msg| - 2);
  }

  lemma Between(ip: string, port: nat, k: nat)
    requires k <= |ip|
    ensures var msg := Reply(ip, port);
            |OPENING| + k <= |msg| - 2 &&
            msg[|OPENING| + k..|msg| - 2]
            == Replace(ip, '.', ',')[k..] + "," + Decimal(port / 256) + "," + Decimal(port % 256)
  {
    var host := Replace(ip, '.', ',');
    var numbers := "," + Decimal(port / 256) + "," + Decimal(port % 256);
    var msg := Reply(ip, port);
    assert msg == OPENING + host + (numbers + ").");
    assert msg == (OPENING + host[..k]) + (host[k..] + numbers) + ").";
    assert host[k..] + numbers == host[k..] + "," + Decimal(port / 256) + "," + Decimal(port % 256);
  }

  /** The part of the address that the client takes for the host. */
  function HostOf(ip: string): string {
    Replace(ip, '.', ',')[LastIndex(ip, '(') + 1..]
  }

  lemma FieldsParsed(host: string, port: nat)
    ensures ParseFields(Split(host, ',') + [Decimal(port / 256), Decimal(port % 256)]) ==
            if Count(host, ',') != 3 then Err(WrongFieldCount)
            else Ok(Replace(host, ',', '.') + ":" + Decimal(port))
  {
    var p1, p2, hosts := Decimal(port / 256), Decimal(port % 256), Split(host, ',');
    var parts := hosts + [p1, p2];
    SplitCount(host, ',');
    if |parts| == 6 {
      assert parts[..4] == hosts && parts[4] == p1 && parts[5] == p2;
      JoinSplit(host, ',', '.');
      ScanDecimal(port / 256);
      ScanDecimal(port % 256);
    }
  }

  lemma InsideReply(ip: string, port: nat)
    ensures Inside(Reply(ip, port)) == Ok(HostOf(ip) + "," + Decimal(port / 256) + "," + Decimal(port % 256))
  {
    var msg, k := Reply(ip, port), LastIndex(ip, '(') + 1;
    Between(ip, port, k);
    var s, e := LastIndex(msg, '('), LastIndex(msg, ')');
    assert s + 1 == |OPENING| + k && e == |msg| - 2 by {
      Parentheses(ip, port);
    }
    assert msg[s + 1..e] == msg[|OPENING| + k..|msg| - 2];
  }

  lemma ReplyIsSplit(ip: string, port: nat)
    ensures ParsePasv(Reply(ip, port)) ==
            ParseFields(Split(HostOf(ip), ',') + [Decimal(port / 256), Decimal(port % 256)])
  {
    DecimalHasOnlyDigits(port / 256, ',');
    DecimalHasOnlyDigits(port % 256, ',');
    FieldsOf(HostOf(ip), Decimal(port / 256), Decimal(port % 256));
    InsideReply(ip, port);
  }

  lemma ParsedReply(ip: string, port: nat)
    ensures ParsePasv(Reply(ip, port)) ==
            if Count(HostOf(ip), ',') != 3 then Err(WrongFieldCount)
            else Ok(Replace(HostOf(ip), ',', '.') + ":" + Decimal(port))
  {
    ReplyIsSplit(ip, port);
    FieldsParsed(HostOf(ip), port);
  }

  /** Changing dots to commas and back keeps an address exactly if it has no comma. */
  lemma ReplacedTwice(ip: string)
    ensures Replace(Replace(ip, '.', ','), ',', '.') == ip <==> ',' !in ip
  {
    var back := Replace(Replace(ip, '.', ','), ',', '.');
    if ',' in ip {
      var i :| 0 <= i < |ip| && ip[i] == ',';
      assert back[i] == '.';
    }
  }

  lemma SameAddress(a: string, b: string, port: string)
    ensures a + ":" + port == b + ":" + port <==> a == b
  {
    if a + ":" + port == b + ":" + port {
      var s, t := a + ":" + port, b + ":" + port;
      assert |s| == |a| + 1 + |port| && |t| == |b| + 1 + |port|;
      assert s[..|a|] == a && t[..|b|] == b;
    }
  }

  lemma NoneIsLast(s: string, c: char)
    ensures LastIndex(s, c) == -1 <==> c !in s
  {
    var i := LastIndex(s, c);
    if i >= 0 {
      assert s[i] in s;
    }
  }

  lemma CountOfHost(ip: string)
    requires LastIndex(ip, '(') == -1
    ensures HostOf(ip) == Replace(ip, '.', ',') && Count(HostOf(ip), ',') == Count(ip, '.') + Count(ip, ',')
  {
    var host := Replace(ip, '.', ',');
    assert host[0..] == host;
    CountReplaced(ip);
  }

  lemma SameHostIff(ip: string)
    ensures Count(HostOf(ip), ',') == 3 && Replace(HostOf(ip), ',', '.') == ip
            <==> Count(ip, '.') == 3 && ',' !in ip && '(' !in ip
  {
    NoneIsLast(ip, '(');
    if LastIndex(ip, '(') >= 0 {
      assert |Replace(HostOf(ip), ',', '.')| < |ip|;
    } else {
      CountOfHost(ip);
      ReplacedTwice(ip);
      CountZero(ip, ',');
    }
  }

  /** The client gets back the address and port exactly if the address is of four parts, without commas or "(". */
  lemma PasvRoundTripIff(ip: string, port: nat)
    ensures ParsePasv(Reply(ip, port)) == Ok(ip + ":" + Decimal(port)) <==>
            Count(ip, '.') == 3 && ',' !in ip && '(' !in ip
  {
    ParsedReply(ip, port);
    SameAddress(Replace(HostOf(ip), ',', '.'), ip, Decimal(port));
    SameHostIff(ip);
  }

  // ---------- the two ends by themselves ----------

  lemma ReplaceConcat(s: string, t: string, a: char, b: char)
    ensures Replace(s + t, a, b) == Replace(s, a, b) + Replace(t, a, b)
  {
  }

  lemma NothingReplaced(s: string, a: char, b: char)
    requires a !in s
    ensures Replace(s, a, b) == s
  {
    forall i | 0 <= i < |s| ensures Replace(s, a, b)[i] == s[i] {
      assert s[i] in s;
    }
  }

  function Dotted(a: string, b: string, c: string, d: string): string {
    a + "." + b + "." + c + "." + d
  }

  function Listed(a: string, b: string, c: string, d: string): string {
    a + "," + b + "," + c + "," + d
  }

  lemma DotsToCommas(a: string, b: string, c: string, d: string)
    requires '.' !in a && '.' !in b && '.' !in c && '.' !in d
    ensures Replace(Dotted(a, b, c, d), '.', ',') == Listed(a, b, c, d)
  {
    NothingReplaced(a, '.', ',');
    NothingReplaced(b, '.', ',');
    NothingReplaced(c, '.', ',');
    NothingReplaced(d, '.', ',');
    ReplaceConcat(a + "." + b + "." + c + ".", d, '.', ',');
    ReplaceConcat(a + "." + b + "." + c, ".", '.', ',');
    ReplaceConcat(a + "." + b + ".", c, '.', ',');
    ReplaceConcat(a + "." + b, ".", '.', ',');
    ReplaceConcat(a + ".", b, '.', ',');
    ReplaceConcat(a, ".", '.', ',');
  }

  /** The server's text: four parts of the address, then the port's high and low byte. */
  lemma ReplyText(a: string, b: string, c: string, d: string, high: nat, low: nat)
    requires '.' !in a && '.' !in b && '.' !in c && '.' !in d && low < 256
    ensures Reply(Dotted(a, b, c, d), high * 256 + low) ==
            "Entering Passive Mode (" + Listed(a, b, c, d) + ("," + Decimal(high) + "," + Decimal(low) + ").")
  {
    DotsToCommas(a, b, c, d);
    assert (high * 256 + low) / 256 == high && (high * 256 + low) % 256 == low;
  }

  lemma DigitsInOrder()
    ensures Decimal(0) == "0" && Decimal(2190) == "2190"
  {
    assert Decimal(2190) == Decimal(2) + [Digit(1)] + [Digit(9)] + [Digit(0)];
  }

  lemma SplitListed(a: string, b: string, c: string, d: string)
    requires ',' !in a && ',' !in b && ',' !in c && ',' !in d
    ensures Split(Listed(a, b, c, d), ',') == [a, b, c, d]
  {
    NoSeparator(a, ',');
    NoSeparator(b, ',');
    SplitAround(a, ',', b);
    FieldsOf(a + "," + b, c, d);
  }

  lemma JoinFour(a: string, b: string, c: string, d: string)
    ensures Join([a, b, c, d], '.') == Dotted(a, b, c, d)
  {
    assert Join([c, d], '.') == c + "." + d by {
      assert [c, d][1..] == [d];
    }
    assert [a, b, c, d][1..] == [b, c, d] && [b, c, d][1..] == [c, d];
    assert a + ['.'] + (b + ['.'] + (c + "." + d)) == Dotted(a, b, c, d);
  }

  lemma InsideIs(before: string, fields: string, after: string)
    requires '(' !in fields && '(' !in after && ')' !in after
    ensures Inside(before + "(" + fields + ")" + after) == Ok(fields)
  {
    var msg := before + "(" + fields + ")" + after;
    var s, e := |before|, |before| + 1 + |fields|;
    forall k | s < k < |msg| ensures msg[k] != '(' {
      assert msg[k] == if k < e then fields[k - s - 1] else if k == e then ')' else after[k - e - 1];
    }
    forall k | e < k < |msg| ensures msg[k] != ')' {
      assert msg[k] == after[k - e - 1];
    }
    LastIndexIs(msg, '(', s);
    LastIndexIs(msg, ')', e);
    assert msg[s + 1..e] == fields;
  }

  function Blanks(k: nat): (s: string)
    ensures |s| == k
  {
    if k == 0 then "" else " " + Blanks(k - 1)
  }

  lemma {:induction false} BlanksAreSkipped(k: nat, t: string)
    requires t == [] || t[0] != ' '
    ensures SkipSpaces(Blanks(k) + t) == t
    decreases k
  {
    if k == 0 {
      assert Blanks(0) + t == t;
    } else {
      assert (Blanks(k) + t)[1..] == Blanks(k - 1) + t;
      BlanksAreSkipped(k - 1, t);
    }
  }

  lemma {:induction false} DigitsFirst(digits: string, rest: string)
    requires forall i :: 0 <= i < |digits| ==> IsDigit(digits[i])
    requires rest == [] || !IsDigit(rest[0])
    ensures DigitPrefix(digits + rest) == digits
    decreases digits
  {
    if digits == [] {
      assert digits + rest == rest;
    } else {
      assert (digits + rest)[1..] == digits[1..] + rest;
      DigitsFirst(digits[1..], rest);
    }
  }

  /** A number may have blanks and a sign in front, and whatever is no digit behind it. */
  lemma ScanText(k: nat, sign: string, n: nat, rest: string)
    requires sign in {"", "+", "-"} && (rest == [] || !IsDigit(rest[0]))
    ensures ScanInt(Blanks(k) + (sign + (Decimal(n) + rest))) == if sign == "-" then 0 - n else n
  {
    var t := sign + (Decimal(n) + rest);
    ValueOfDecimal(n);
    DigitsFirst(Decimal(n), rest);
    assert sign == "" ==> t == Decimal(n) + rest && IsDigit(t[0]);
    assert sign != "" ==> t[0] == sign[0] && t[1..] == Decimal(n) + rest;
    BlanksAreSkipped(k, t);
  }

  /**
    The client's parser takes the six fields between the last parentheses, whatever stands around these:
    the last two are numbers, the port's high and low byte.
   */
  lemma ParsesAnyText(
      before: string, a: string, b: string, c: string, d: string, high: string, low: string, after: string)
    requires ',' !in a && ',' !in b && ',' !in c && ',' !in d && ',' !in high && ',' !in low
    requires '(' !in Listed(a, b, c, d) + "," + high + "," + low && '(' !in after && ')' !in after
    ensures ParsePasv(before + "(" + (Listed(a, b, c, d) + "," + high + "," + low) + ")" + after) ==
            Ok(Dotted(a, b, c, d) + ":" + DecimalInt(ScanInt(high) * 256 + ScanInt(low)))
  {
    var hosts := Listed(a, b, c, d);
    InsideIs(before, hosts + "," + high + "," + low, after);
    FieldsOf(hosts, high, low);
    SplitListed(a, b, c, d);
    var parts := [a, b, c, d] + [high, low];
    assert parts[..4] == [a, b, c, d] && parts[4] == high && parts[5] == low;
    JoinFour(a, b, c, d);
  }

  lemma WhyNotInside(msg: string)
    ensures var s, e := LastIndex(msg, '('), LastIndex(msg, ')');
            match Inside(msg)
            case Err(NoParentheses) => '(' !in msg || ')' !in msg
            case Err(x) => x == BadBounds && '(' in msg && ')' in msg && e < s
            case Ok(fields) => '(' in msg && ')' in msg && s < e && fields == msg[s + 1..e]
  {
    NoneIsLast(msg, '(');
    NoneIsLast(msg, ')');
  }

  lemma WrongCountIff(fields: string)
    ensures var r := ParseFields(Split(fields, ','));
            r == Err(WrongFieldCount) <==> Count(fields, ',') != 5
    ensures ParseFields(Split(fields, ',')).Err? ==> ParseFields(Split(fields, ',')).error == WrongFieldCount
  {
    SplitCount(fields, ',');
  }

  /** Why a text is not parsed. */
  lemma WhyNotParsed(msg: string)
    ensures var s, e := LastIndex(msg, '('), LastIndex(msg, ')');
            && (ParsePasv(msg) == Err(NoParentheses) <==> '(' !in msg || ')' !in msg)
            && (ParsePasv(msg) == Err(BadBounds) <==> '(' in msg && ')' in msg && e < s)
            && (ParsePasv(msg) == Err(WrongFieldCount) <==>
                '(' in msg && ')' in msg && s < e && Count(msg[s + 1..e], ',') != 5)
  {
    WhyNotInside(msg);
    if Inside(msg).Ok? {
      WrongCountIff(Inside(msg).value);
    }
  }
}
