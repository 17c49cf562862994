/** The text of an account: area group, platform and account name, printed into 64 bytes. */
module LoginAccounts {
  import opened LoginModel

  // ---------------------------------------------------------------------------------------------
  // Numbers as text.

  predicate Numeric(s: string) { s != "" && forall i :: 0 <= i < |s| ==> '0' <= s[i] <= '9' }

  /** What a text of decimal digits stands for. */
  function Number(s: string): int {
    if s == "" then 0 else 10 * Number(s[..|s| - 1]) + (s[|s| - 1] as int - '0' as int)
  }

  lemma {:induction false} DigitsAreTheNumber(n: nat)
    ensures Numeric(Digits(n)) && Number(Digits(n)) == n
    ensures n > 0 ==> Digits(n)[0] != '0'
  {
    if n < 10 {
      assert Digits(n)[..0] == "";
    } else {
      DigitsAreTheNumber(n / 10);
      var last := [('0' as int + n % 10) as char];
      assert (Digits(n / 10) + last)[..|Digits(n)| - 1] == Digits(n / 10);
    }
  }

  /** A printed integer is a sign and digits, and tells the integer. */
  lemma DecimalIsTheNumber(n: int)
    ensures var s := Decimal(n);
            if n < 0 then s != "" && s[0] == '-' && Numeric(s[1..]) && Number(s[1..]) == -n
            else Numeric(s) && Number(s) == n
  {
    DigitsAreTheNumber(if n < 0 then -n else n);
  }

  /** `%d` shows the low 32 bits as a signed number. */
  lemma SignedIsLowHalf(n: nat)
    ensures -0x8000_0000 <= AsInt32(n) < 0x8000_0000
    ensures AsInt32(n) % 0x1_0000_0000 == n % 0x1_0000_0000
  {
    var q, m := n / 0x1_0000_0000, n % 0x1_0000_0000;
    if m >= 0x8000_0000 {
      assert AsInt32(n) == m - 0x1_0000_0000;
    }
  }

  // ---------------------------------------------------------------------------------------------
  // Text up to a NUL.

  predicate NoNul(s: string) { forall i :: 0 <= i < |s| ==> s[i] != '\0' }

  lemma {:induction false} CStringStopsAtNul(s: string)
    ensures var c := CString(s); c <= s && NoNul(c) && (|c| < |s| ==> s[|c|] == '\0')
  {
    if s != "" && s[0] != '\0' {
      CStringStopsAtNul(s[1..]);
      var c := CString(s[1..]);
      assert s == [s[0]] + s[1..];
      assert forall i :: 0 <= i < |CString(s)| ==> CString(s)[i] == if i == 0 then s[0] else c[i - 1];
    }
  }

  // ---------------------------------------------------------------------------------------------
  // The account.

  /** Area group, platform and name, in full. */
  function FullText(area: nat, apType: nat, name: string): string {
    Decimal(AsInt32(area)) + "_" + Decimal(apType) + "_" + CString(name)
  }

  /** The account is the full text, cut after 63 characters. */
  lemma AccountIsCut(area: nat, apType: nat, name: string)
    ensures var full := FullText(area, apType, name);
            FormatPtid(area, apType, name) == full[..if |full| <= 63 then |full| else 63]
  {
  }

  predicate Unmarked(s: string) { forall i :: 0 <= i < |s| ==> s[i] != '_' }

  lemma DecimalIsUnmarked(n: int)
    ensures Unmarked(Decimal(n))
  {
    DecimalIsTheNumber(n);
    var s := Decimal(n);
    if n < 0 {
      assert forall i :: 0 < i < |s| ==> s[i] == s[1..][i - 1];
    }
  }

  lemma {:induction false} SplitAtMark(a: string, x: string, b: string, y: string)
    requires Unmarked(a) && Unmarked(b) && a + "_" + x == b + "_" + y
    ensures a == b && x == y
  {
    var s, t := a + "_" + x, b + "_" + y;
    assert s[|a|] == '_' && t[|b|] == '_';
    assert |a| == |b|;
    assert s[..|a|] == a && t[..|b|] == b;
    assert s[|a| + 1..] == x && t[|b| + 1..] == y;
  }

  lemma DecimalTellsApart(m: int, n: int)
    ensures Decimal(m) == Decimal(n) <==> m == n
  {
    DecimalIsTheNumber(m);
    DecimalIsTheNumber(n);
  }

  /** When both full texts fit, two requests are for the same account exactly when they agree in the area
      group, the platform and the name up to a NUL. */
  lemma SameAccountIff(area: nat, apType: nat, name: string, area': nat, apType': nat, name': string)
    requires |FullText(area, apType, name)| <= 63 && |FullText(area', apType', name')| <= 63
    ensures FormatPtid(area, apType, name) == FormatPtid(area', apType', name')
       <==> area % 0x1_0000_0000 == area' % 0x1_0000_0000 && apType == apType' && CString(name) == CString(name')
  {
    AccountIsCut(area, apType, name);
    AccountIsCut(area', apType', name');
    SignedIsLowHalf(area);
    SignedIsLowHalf(area');
    SameText(AsInt32(area), apType, CString(name), AsInt32(area'), apType', CString(name'));
    hide FormatPtid, Decimal, CString;
  }

  lemma SameText(a: int, t: nat, c: string, a': int, t': nat, c': string)
    ensures Decimal(a) + "_" + Decimal(t) + "_" + c == Decimal(a') + "_" + Decimal(t') + "_" + c'
       <==> a == a' && t == t' && c == c'
  {
    DecimalTellsApart(a, a');
    DecimalTellsApart(t, t');
    DecimalIsUnmarked(a);
    DecimalIsUnmarked(t);
    DecimalIsUnmarked(a');
    DecimalIsUnmarked(t');
    hide Decimal, Unmarked;
    var x, x' := Decimal(t) + "_" + c, Decimal(t') + "_" + c';
    assert Decimal(a) + "_" + x == Decimal(a) + "_" + Decimal(t) + "_" + c;
    assert Decimal(a') + "_" + x' == Decimal(a') + "_" + Decimal(t') + "_" + c';
    if Decimal(a) + "_" + x == Decimal(a') + "_" + x' {
      SplitAtMark(Decimal(a), x, Decimal(a'), x');
      SplitAtMark(Decimal(t), c, Decimal(t'), c');
    }
  }

  /** Names that agree in the first 63 characters are not told apart, whatever follows. */
  lemma LongNamesCollide(area: nat, apType: nat, name: string, more: string)
    requires NoNul(name) && |name| >= 63
    ensures FormatPtid(area, apType, name) == FormatPtid(area, apType, name + more)
  {
    CStringStopsAtNul(name);
    CStringStopsAtNul(name + more);
    hide Decimal, CString;
    var head := Decimal(AsInt32(area)) + "_" + Decimal(apType) + "_";
    assert CString(name + more)[..63] == name[..63] == CString(name)[..63];
    assert |head| >= 2;
    assert (head + CString(name))[..63] == (head + CString(name + more))[..63];
  }
}
