/** What the printed texts look like and what scanning makes of any text, said apart from each other:
    printing yields the one text of its shape, and scanning follows the grammar of scanf. */
module DecimalText {
  import opened CText
  import opened Decimal

  // ----- printing -----

  /** Decimal digits without leading zeros. */
  predicate CanonicalDigits(s: string) {
    s != "" && AllDigits(s) && (|s| > 1 ==> s[0] != '0')
  }

  /** ... with a '-' in front of a negative number, and of nothing else. */
  predicate IsIntText(s: string) {
    if s != "" && s[0] == '-' then CanonicalDigits(s[1..]) && s[1..] != "0" else CanonicalDigits(s)
  }

  lemma {:induction false} PrintNatShape(n: nat)
    ensures CanonicalDigits(PrintNat(n))
    ensures PrintNat(n)[0] == '0' <==> n == 0
  {
    if n >= 10 {
      TensAndOnes(n);
      PrintNatShape(Tens(n));
    }
  }

  lemma {:induction false} CanonicalPositive(s: string)
    requires CanonicalDigits(s)
    ensures DigitsValue(s) == 0 <==> s == "0"
  {
    if |s| > 1 {
      var init := s[..|s| - 1];
      assert init[0] == s[0];
      CanonicalPositive(init);
    } else {
      assert s == [s[0]] && s[..0] == "";
      assert DigitsValue(s) == DigitValue(s[0]);
    }
  }

  lemma DigitOfValue(c: char)
    requires IsDigit(c)
    ensures DigitChar(DigitValue(c)) == c
  {
  }

  lemma CanonicalInit(s: string)
    requires CanonicalDigits(s)
    ensures s != "" && IsDigit(s[|s| - 1])
    ensures |s| > 1 ==> CanonicalDigits(s[..|s| - 1]) && s[..|s| - 1] != "0"
  {
    if |s| > 1 {
      assert s[..|s| - 1][0] == s[0];
    }
  }

  lemma NoDigits()
    ensures DigitsValue("") == 0
  {
  }

  /** There is one text of that shape for each number, and it is the one that is printed. */
  lemma {:induction false} PrintNatIsOnly(s: string, n: nat)
    requires CanonicalDigits(s)
    ensures DigitsValue(s) == n <==> s == PrintNat(n)
  {
    PrintNatValue(n);
    hide CanonicalDigits, AllDigits;
    if DigitsValue(s) == n {
      CanonicalInit(s);
      var init, last := s[..|s| - 1], s[|s| - 1];
      DigitOfValue(last);
      assert s == init + [last];
      if init == "" {
        assert s == [last];
        NoDigits();
      } else {
        CanonicalPositive(init);
        PrintNatIsOnly(init, DigitsValue(init));
        assert n == 10 * DigitsValue(init) + DigitValue(last);
        TensAndOnes(n);
      }
    }
  }

  lemma PrintIntShape(i: int)
    ensures IsIntText(PrintInt(i))
  {
    if i < 0 {
      var n: nat := -i;
      PrintNatShape(n);
      assert PrintInt(i)[1..] == PrintNat(n);
    } else {
      PrintNatShape(i);
    }
  }

  // ----- scanning -----

  predicate AllSpaces(s: string) {
    forall i :: 0 <= i < |s| ==> IsSpace(s[i])
  }

  lemma {:induction false} SkipSpaceOf(sp: string, t: string)
    requires AllSpaces(sp) && (t != "" ==> !IsSpace(t[0]))
    ensures SkipSpace(sp + t) == t
  {
    if sp == "" {
      assert sp + t == t;
    } else {
      SkipSpaceOf(sp[1..], t);
      assert (sp + t)[1..] == sp[1..] + t;
    }
  }

  lemma ScanDigitsOf(ds: string, rest: string, negative: bool)
    requires AllDigits(ds) && (rest != "" ==> !IsDigit(rest[0]))
    ensures ScanDigits(ds + rest, negative) ==
      if ds == "" then NoMatch else Match(Signed(DigitsValue(ds), negative), rest)
  {
    DigitRunOf(ds, rest);
    assert (ds + rest)[..|ds|] == ds && (ds + rest)[|ds|..] == rest;
  }

  /** White space, a sign or none, the longest run of digits: the value and what follows it; and no
      match if there are no digits. */
  lemma ScanFollowsGrammar(sp: string, sign: string, ds: string, rest: string)
    requires AllSpaces(sp) && sign in ["", "+", "-"] && AllDigits(ds)
    requires rest != "" ==> !IsDigit(rest[0])
    requires sign == "" && ds == "" && rest != "" ==> !IsSpace(rest[0]) && rest[0] != '+' && rest[0] != '-'
    ensures ScanInt(sp + (sign + (ds + rest))) ==
      if ds == "" then NoMatch else Match(Signed(DigitsValue(ds), sign == "-"), rest)
  {
    var body := ds + rest;
    var t := sign + body;
    assert ds != "" ==> body[0] == ds[0];
    assert sign == "" ==> t == body;
    assert sign != "" ==> t[0] == sign[0] && t[1..] == body;
    hide SkipSpace, ScanDigits, DigitsValue;
    SkipSpaceOf(sp, t);
    ScanDigitsOf(ds, rest, sign == "-");
  }

  lemma ScanIntText(s: string, i: int)
    requires IsIntText(s)
    ensures ScanInt(s) == Match(i, "") <==> s == PrintInt(i)
  {
    hide ScanInt, PrintNat, DigitsValue;
    if s[0] == '-' {
      var ds := s[1..];
      assert s == "" + ("-" + (ds + ""));
      ScanFollowsGrammar("", "-", ds, "");
      var v := DigitsValue(ds);
      PrintNatIsOnly(ds, v);
      CanonicalPositive(ds);
      var negated := Signed(v, true);
      assert PrintInt(negated) == "-" + PrintNat(v) == s;
      PrintIntOnce(i, negated);
    } else {
      assert s == "" + ("" + (s + ""));
      ScanFollowsGrammar("", "", s, "");
      var v := DigitsValue(s);
      PrintNatIsOnly(s, v);
      assert PrintInt(v) == s;
      PrintIntOnce(i, v);
    }
  }

  lemma PrintIntOnce(i: int, j: int)
    ensures PrintInt(i) == PrintInt(j) ==> i == j
  {
    ScanPrintInt(i, "");
    ScanPrintInt(j, "");
    assert PrintInt(i) + "" == PrintInt(i) && PrintInt(j) + "" == PrintInt(j);
  }

  lemma NoDotInIntText(s: string)
    requires IsIntText(s)
    ensures '.' !in s
  {
    if s[0] == '-' {
      assert forall i :: 1 <= i < |s| ==> s[i] == s[1..][i - 1];
    }
  }

  lemma SplitAtDot(x: string, y: string, x': string, y': string)
    requires '.' !in x && '.' !in x'
    requires x + "." + y == x' + "." + y'
    ensures x == x' && y == y'
  {
    var s := x + "." + y;
    assert s[|x|] == '.' && s[|x'|] == '.';
    assert forall i :: 0 <= i < |x| ==> s[i] == x[i];
    assert forall i :: 0 <= i < |x'| ==> s[i] == x'[i];
    assert |x| == |x'|;
    assert x == s[..|x|] && y == s[|x| + 1..];
  }

  /** A printed time is two integer texts around one '.', nothing else: of all such texts it is the one
      whose parts scan to the seconds and the nanoseconds. */
  lemma PrintTimeIsOnly(t: Time, x: string, y: string)
    requires IsIntText(x) && IsIntText(y)
    ensures PrintTime(t) == x + "." + y <==> ScanInt(x) == Match(t.sec, "") && ScanInt(y) == Match(t.nsec, "")
  {
    hide ScanInt, PrintInt, IsIntText;
    ScanIntText(x, t.sec);
    ScanIntText(y, t.nsec);
    PrintIntShape(t.sec);
    PrintIntShape(t.nsec);
    NoDotInIntText(x);
    NoDotInIntText(PrintInt(t.sec));
    if PrintTime(t) == x + "." + y {
      SplitAtDot(PrintInt(t.sec), PrintInt(t.nsec), x, y);
    }
  }

  /** ... and it does have that form. */
  lemma PrintTimeShape(t: Time)
    ensures exists x, y :: IsIntText(x) && IsIntText(y) && PrintTime(t) == x + "." + y
  {
    PrintIntShape(t.sec);
    PrintIntShape(t.nsec);
    assert PrintTime(t) == PrintInt(t.sec) + "." + PrintInt(t.nsec);
  }

  /** A text without a '.' behind the seconds leaves the nanoseconds as they were. */
  lemma SecondsOnly(sec: Int64, rest: string, previous: Time)
    requires rest != "" ==> rest[0] != '.' && !IsDigit(rest[0])
    ensures ScanTime(PrintInt(sec) + rest, previous) == Time(sec, previous.nsec)
  {
    hide ScanInt, PrintInt;
    ScanPrintInt(sec, rest);
  }
}
