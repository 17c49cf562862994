/** The key parser as it works, step by step. */
module TomlKeyIO {
  import opened TomlChars
  import opened TomlKey
  import Num = TomlInteger

  // ---------------------------------------------------------------------------------------------
  // Parsing.

  /** The outcome of a string read so far as `done`, when the rest of the text gives `r`. */
  function After(done: seq<nat>, r: Read): Read {
    if r.Ok? then Ok((done + r.value.0, r.value.1)) else Err
  }

  lemma AfterPush(done: seq<nat>, c: nat, r: Read)
    ensures After(done, Push(c, r)) == After(done + [c], r)
  {
    if r.Ok? {
      assert done + ([c] + r.value.0) == done + [c] + r.value.0;
    }
  }

  lemma AfterNothing(r: Read)
    ensures After([], r) == r
  {
    if r.Ok? {
      assert [] + r.value.0 == r.value.0;
    }
  }

  method ParseBareKeySegment(s: seq<nat>) returns (key: seq<nat>, rest: seq<nat>)
    requires s != [] && IsBare(s[0])
    ensures Segment(s) == Ok((key, rest))
  {
    var n := 0;
    assert s[0..] == s;
    while n < |s|
      invariant n <= |s| && BareLen(s) == n + BareLen(s[n..])
    {
      if !IsBare(s[n]) {
        break;
      }
      assert s[n..][1..] == s[n + 1..];
      n := n + 1;
    }
    key, rest := s[..n], s[n..];
  }

  method ParseLiteralString(s: seq<nat>) returns (r: Read)
    ensures r == LiteralString(s)
  {
    AfterNothing(LiteralString(s));
    var cur, str := s, [];
    while cur != []
      invariant LiteralString(s) == After(str, LiteralString(cur))
      decreases |cur|
    {
      if cur[0] == APOSTROPHE {
        assert str + [] == str;
        return Ok((str, cur[1..]));
      }
      if Forbidden(cur[0]) {
        return Err;
      }
      AfterPush(str, cur[0], LiteralString(cur[1..]));
      str, cur := str + [cur[0]], cur[1..];
    }
    r := Err;
  }

  /** The place-value loop of a `\\u` or `\\U` escape. */
  method ReadScalar(s: seq<nat>, n: nat) returns (r: Result<(nat, seq<nat>)>)
    requires n == 4 || n == 8
    ensures r == ScalarEscape(s, n)
  {
    Places(n);
    hide Num.Value, Num.Pow, IsHex, HexValue, Scaled;
    var place: nat := if n == 8 then 0x1000_0000 else 0x1000;
    var value: nat := 0;
    var i := 0;
    assert s[..0] == [];
    while i < n
      invariant i <= n && i <= |s| && Num.AllDigits(Num.Hex, s[..i])
      invariant value == Scaled(s[..i], n - i)
      invariant i < n ==> place == Num.Pow(16, n - i - 1)
    {
      if i == |s| || !IsHex(s[i]) {
        assert i < |s| && n <= |s| ==> s[..n][i] == s[i];
        return Err;
      }
      PlaceStep(s[..i], s[i], n - i - 1);
      assert s[..i] + [s[i]] == s[..i + 1];
      value := value + place * HexValue(s[i]);
      place := place / 16;
      i := i + 1;
    }
    if IsSurrogate(value) || value > 0x10FFFF {
      return Err;
    }
    r := Ok((value, s[n..]));
  }

  /** The value of the digits read so far, shifted by the places still to come. */
  function Scaled(ds: seq<nat>, k: nat): nat
    requires Num.AllDigits(Num.Hex, ds)
  {
    Num.Value(Num.Hex, ds) * Num.Pow(16, k)
  }

  lemma Places(n: nat)
    requires n == 4 || n == 8
    ensures Num.Pow(16, n - 1) == (if n == 8 then 0x1000_0000 else 0x1000)
    ensures Scaled([], n) == 0
    ensures forall ds :: Num.AllDigits(Num.Hex, ds) ==> Scaled(ds, 0) == Num.Value(Num.Hex, ds)
  {
    assert Num.Pow(16, 1) == 16 && Num.Pow(16, 3) == 4096;
    assert Num.Pow(16, 5) == 0x10_0000;
    assert Num.Pow(16, 7) == 0x1000_0000;
    assert Num.Pow(16, 0) == 1 && Num.Value(Num.Hex, []) == 0;
  }

  lemma PlaceStep(ds: seq<nat>, c: nat, k: nat)
    requires Num.AllDigits(Num.Hex, ds) && IsHex(c)
    ensures Num.AllDigits(Num.Hex, ds + [c])
    ensures Scaled(ds, k + 1) + Num.Pow(16, k) * HexValue(c) == Scaled(ds + [c], k)
    ensures k > 0 ==> Num.Pow(16, k) / 16 == Num.Pow(16, k - 1)
  {
    Num.ValueAppend(Num.Hex, ds, c);
    var v, p, d := Num.Value(Num.Hex, ds), Num.Pow(16, k), HexValue(c);
    assert Num.Pow(16, k + 1) == 16 * p;
    Expand(v, p, d);
  }

  lemma Expand(v: nat, p: nat, d: nat)
    ensures v * (16 * p) + p * d == (v * 16 + d) * p
  {
    assert v * (16 * p) == v * 16 * p;
  }

  method ReadEscape(s: seq<nat>) returns (r: Result<(nat, seq<nat>)>)
    ensures r == EscapeAt(s)
  {
    if s == [] {
      return Err;
    }
    match s[0] {
      case 0x62 => r := Ok((0x08, s[1..]));
      case 0x66 => r := Ok((0x0C, s[1..]));
      case 0x6E => r := Ok((0x0A, s[1..]));
      case 0x72 => r := Ok((0x0D, s[1..]));
      case 0x74 => r := Ok((0x09, s[1..]));
      case 0x22 => r := Ok((0x22, s[1..]));
      case 0x5C => r := Ok((0x5C, s[1..]));
      case 0x75 => r := ReadScalar(s[1..], 4);
      case 0x55 => r := ReadScalar(s[1..], 8);
      case _ => r := Err;
    }
  }

  method ParseBasicString(s: seq<nat>) returns (r: Read)
    ensures r == BasicString(s)
  {
    hide EscapeAt;
    AfterNothing(BasicString(s));
    var cur, str := s, [];
    while cur != []
      invariant BasicString(s) == After(str, BasicString(cur))
      decreases |cur|
    {
      if cur[0] == QUOTE {
        assert str + [] == str;
        return Ok((str, cur[1..]));
      } else if cur[0] == BACKSLASH {
        var e := ReadEscape(cur[1..]);
        if e == Err {
          return Err;
        }
        AfterPush(str, e.value.0, BasicString(e.value.1));
        str, cur := str + [e.value.0], e.value.1;
      } else {
        if Forbidden(cur[0]) {
          return Err;
        }
        AfterPush(str, cur[0], BasicString(cur[1..]));
        str, cur := str + [cur[0]], cur[1..];
      }
    }
    r := Err;
  }

  method ParseSegment(s: seq<nat>) returns (r: Read)
    ensures r == Segment(s)
  {
    hide LiteralString, BasicString, BareLen;
    if s == [] {
      return Err;
    }
    if IsBare(s[0]) {
      var key, rest := ParseBareKeySegment(s);
      return Ok((key, rest));
    }
    if !IsDelimiter(s[0]) || |s| == 1 {
      return Err;
    }
    if |s| == 2 {
      return if s[1] == s[0] then Ok(([], [])) else Err;
    }
    if s[0] == s[1] && s[0] == s[2] {
      return Err;
    }
    if s[0] == APOSTROPHE {
      r := ParseLiteralString(s[1..]);
    } else {
      r := ParseBasicString(s[1..]);
    }
  }

  method ConsumeLeadingWhitespace(s: seq<nat>) returns (r: Result<seq<nat>>)
    ensures r == SkipBlanks(s)
  {
    var cur := s;
    while cur != [] && IsHorizontal(cur[0])
      invariant SkipBlanks(s) == SkipBlanks(cur)
      decreases |cur|
    {
      if !IsAsciiHorizontal(cur[0]) {
        return Err;
      }
      cur := cur[1..];
    }
    r := Ok(cur);
  }

  type Keys = Result<(seq<seq<nat>>, seq<nat>)>

  function AfterKeys(done: seq<seq<nat>>, r: Keys): Keys {
    if r.Ok? then Ok((done + r.value.0, r.value.1)) else Err
  }

  method ParseKey(s: seq<nat>) returns (r: Keys)
    ensures r == KeyPath(s, 0)
  {
    hide Segment, SkipBlanks, KeyPath;
    var cur := s;
    var keys: seq<seq<nat>> := [];
    KeysNothing(KeyPath(s, 0));
    while true
      invariant KeyPath(s, 0) == AfterKeys(keys, KeyPath(cur, |keys|))
      decreases |cur|
    {
      KeyStep(cur, keys);
      var seg := ParseSegment(cur);
      if seg == Err {
        return Err;
      }
      var after := ConsumeLeadingWhitespace(seg.value.1);
      if after == Err {
        return Err;
      }
      keys := keys + [seg.value.0];
      if |keys| > MAX_DEPTH {
        return Err;
      }
      if after.value == [] || after.value[0] != DOT {
        return Ok((keys, after.value));
      }
      var next := ConsumeLeadingWhitespace(after.value[1..]);
      if next == Err {
        return Err;
      }
      cur := next.value;
    }
  }

  lemma KeysNothing(r: Keys)
    ensures AfterKeys([], r) == r
  {
    if r.Ok? {
      assert [] + r.value.0 == r.value.0;
    }
  }

  lemma {:induction false} KeyStep(s: seq<nat>, done: seq<seq<nat>>)
    ensures var all := AfterKeys(done, KeyPath(s, |done|));
            match Segment(s)
            case Err => all == Err
            case Ok((k, t)) =>
              match SkipBlanks(t)
              case Err => all == Err
              case Ok(u) =>
                if |done| + 1 > MAX_DEPTH then all == Err
                else if u == [] || u[0] != DOT then all == Ok((done + [k], u))
                else
                  match SkipBlanks(u[1..])
                  case Err => all == Err
                  case Ok(w) => all == AfterKeys(done + [k], KeyPath(w, |done| + 1))
  {
    hide Segment, SkipBlanks;
    if Segment(s).Ok? && SkipBlanks(Segment(s).value.1).Ok? {
      var k, u := Segment(s).value.0, SkipBlanks(Segment(s).value.1).value;
      if u != [] && u[0] == DOT && SkipBlanks(u[1..]).Ok? {
        var r := KeyPath(SkipBlanks(u[1..]).value, |done| + 1);
        if r.Ok? {
          assert done + ([k] + r.value.0) == done + [k] + r.value.0;
        }
      }
    }
  }
}
