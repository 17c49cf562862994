/** Paths into a TOML document: the parser of `a.b[3].c` against the printer. Characters are their
    codes. */
module TomlPath {
  import opened Prelude
  import opened TomlChars
  import opened TomlInteger

  /** Array indexes are `size_t`. */
  datatype Component = Key(name: seq<nat>) | Index(index: nat)

  const DOT: nat := 0x2E
  const OPEN: nat := 0x5B
  const CLOSE: nat := 0x5D

  predicate IsBlank(c: nat) { c == 0x20 || c == 0x09 }

  predicate IsSpecial(c: nat) { c == DOT || c == OPEN || c == CLOSE }

  predicate IndexesFit(p: seq<Component>) { forall i :: 0 <= i < |p| && p[i].Index? ==> p[i].index < U64 }

  // ---------------------------------------------------------------------------------------------
  // The printer.

  function PrintComponent(c: Component, root: bool): seq<nat> {
    match c
    case Key(k) => (if root then [] else [DOT]) + k
    case Index(n) => [OPEN] + ToDigits(Dec, n) + [CLOSE]
  }

  /** What is printed after the first component. */
  function PrintTail(p: seq<Component>): seq<nat> {
    if p == [] then [] else PrintComponent(p[0], false) + PrintTail(p[1..])
  }

  function Printed(p: seq<Component>): seq<nat> {
    if p == [] then [] else PrintComponent(p[0], true) + PrintTail(p[1..])
  }

  method PrintTo(p: seq<Component>) returns (out: seq<nat>)
    ensures out == Printed(p)
  {
    hide ToDigits, PrintTail, PrintComponent, Printed;
    PrintEnds(p);
    out := [];
    var root := true;
    var i := 0;
    while i < |p|
      invariant i <= |p| && root == (i == 0)
      invariant i > 0 ==> Printed(p) == out + PrintTail(p[i..])
      invariant i == 0 ==> out == []
    {
      PrintStep(p, i, out);
      match p[i] {
        case Key(k) =>
          if !root {
            out := out + [DOT];
          }
          out := out + k;
        case Index(n) =>
          out := out + [OPEN];
          out := out + ToDigits(Dec, n);
          out := out + [CLOSE];
      }
      root := false;
      i := i + 1;
    }
    assert p[|p|..] == [] && out + [] == out;
  }

  lemma PrintEnds(p: seq<Component>)
    ensures PrintTail([]) == [] && (p == [] ==> Printed(p) == [])
  {
  }

  lemma {:induction false} PrintStep(p: seq<Component>, i: nat, out: seq<nat>)
    requires i < |p| && (i == 0 ==> out == [])
    ensures var c := PrintComponent(p[i], i == 0);
            (if i == 0 then Printed(p) else out + PrintTail(p[i..])) == out + c + PrintTail(p[i + 1..])
    ensures p[i].Key? && i > 0 ==> out + PrintComponent(p[i], false) == out + [DOT] + p[i].name
    ensures p[i].Key? && i == 0 ==> out + PrintComponent(p[i], true) == out + p[i].name
    ensures p[i].Index? ==>
              out + PrintComponent(p[i], i == 0) == out + [OPEN] + ToDigits(Dec, p[i].index) + [CLOSE]
  {
    ComponentText(p[i], i == 0, out);
    hide ToDigits;
    assert p[i..][1..] == p[i + 1..];
    assert i > 0 ==> PrintTail(p[i..]) == PrintComponent(p[i], false) + PrintTail(p[i + 1..]);
    assert i == 0 ==> Printed(p) == PrintComponent(p[0], true) + PrintTail(p[1..]);
    hide PrintTail, PrintComponent, Printed;
    Assoc(out, PrintComponent(p[i], i == 0), PrintTail(p[i + 1..]));
    assert i == 0 ==> out + Printed(p) == Printed(p);
  }

  lemma ComponentText(c: Component, root: bool, out: seq<nat>)
    ensures c.Key? && !root ==> out + PrintComponent(c, root) == out + [DOT] + c.name
    ensures c.Key? && root ==> out + PrintComponent(c, root) == out + c.name
    ensures c.Index? ==> out + PrintComponent(c, root) == out + [OPEN] + ToDigits(Dec, c.index) + [CLOSE]
  {
    hide ToDigits;
  }

  // ---------------------------------------------------------------------------------------------
  // The parser, as a function of the text still to be read and of what came before it.

  function BlankLen(s: seq<nat>): (n: nat)
    ensures n <= |s| && (n < |s| ==> !IsBlank(s[n])) && forall i :: 0 <= i < n ==> IsBlank(s[i])
  {
    if s == [] || !IsBlank(s[0]) then 0 else 1 + BlankLen(s[1..])
  }

  function DigitLen(s: seq<nat>): (n: nat)
    ensures n <= |s| && (n < |s| ==> !IsDecimal(s[n])) && forall i :: 0 <= i < n ==> IsDecimal(s[i])
  {
    if s == [] || !IsDecimal(s[0]) then 0 else 1 + DigitLen(s[1..])
  }

  function KeyLen(s: seq<nat>): (n: nat)
    ensures n <= |s| && (n < |s| ==> IsSpecial(s[n])) && forall i :: 0 <= i < n ==> !IsSpecial(s[i])
  {
    if s == [] || IsSpecial(s[0]) then 0 else 1 + KeyLen(s[1..])
  }

  /** After `[`: blanks, digits, blanks and an optional `]`. Gives the index and what follows. */
  function IndexAt(s: seq<nat>): (r: Result<(nat, seq<nat>)>)
    ensures r.Ok? ==> |r.value.1| < |s| && r.value.0 < U64
  {
    var t := s[BlankLen(s)..];
    var n := DigitLen(t);
    if n == 0 then Err
    else
      var after := t[n..];
      var u := after[BlankLen(after)..];
      var rest := if u != [] && u[0] == CLOSE then u[1..] else u;
      DigitsOf(t);
      var v := Value(Dec, t[..n]);
      if u != [] && !IsSpecial(u[0]) then Err
      else if v >= U64 then Err
      else Ok((v, rest))
  }

  function Prepend(c: Component, r: Result<seq<Component>>): Result<seq<Component>> {
    if r.Ok? then Ok([c] + r.value) else Err
  }

  function Parse(s: seq<nat>, afterIndex: bool, afterDot: bool): Result<seq<Component>>
    decreases |s|
  {
    if s == [] then Ok(if afterDot then [Key([])] else [])
    else if s[0] == OPEN then
      (match IndexAt(s[1..])
       case Err => Err
       case Ok((n, rest)) => Prepend(Index(n), Parse(rest, true, false)))
    else if s[0] == DOT then
      (if afterDot then Prepend(Key([]), Parse(s[1..], false, true)) else Parse(s[1..], false, true))
    else if s[0] == CLOSE then Err
    else
      var k := KeyLen(s);
      if !afterIndex then Prepend(Key(s[..k]), Parse(s[k..], false, false))
      else if BlankLen(s[..k]) == k then Parse(s[k..], false, false)
      else Err
  }

  function ParsePath(s: seq<nat>): Result<seq<Component>> { Parse(s, false, true) }

  /** What the parse gives when `done` has been collected and `r` is what the rest gives. */
  function After(done: seq<Component>, r: Result<seq<Component>>): Result<seq<Component>> {
    if r.Ok? then Ok(done + r.value) else Err
  }

  lemma AfterPrepend(done: seq<Component>, c: Component, r: Result<seq<Component>>)
    ensures After(done, Prepend(c, r)) == After(done + [c], r)
  {
    if r.Ok? {
      assert done + ([c] + r.value) == done + [c] + r.value;
    }
  }

  method SkipBlanks(s: seq<nat>) returns (n: nat)
    ensures n == BlankLen(s)
  {
    n := 0;
    assert s[0..] == s;
    while n < |s| && IsBlank(s[n])
      invariant n <= |s| && BlankLen(s) == n + BlankLen(s[n..])
    {
      assert s[n..][1..] == s[n + 1..];
      n := n + 1;
    }
  }

  method SkipDigits(s: seq<nat>) returns (n: nat)
    ensures n == DigitLen(s)
  {
    n := 0;
    assert s[0..] == s;
    while n < |s| && IsDecimal(s[n])
      invariant n <= |s| && DigitLen(s) == n + DigitLen(s[n..])
    {
      assert s[n..][1..] == s[n + 1..];
      n := n + 1;
    }
  }

  lemma DigitsOf(t: seq<nat>)
    ensures AllDigits(Dec, t[..DigitLen(t)])
  {
  }

  /** An array indexer, from the character after `[` on: the index and the text after it. */
  method ReadIndex(s: seq<nat>) returns (r: Result<(nat, seq<nat>)>)
    ensures r == IndexAt(s)
  {
    hide Value, BlankLen, DigitLen;
    var start := SkipBlanks(s);
    var t := s[start..];
    var n := SkipDigits(t);
    if n == 0 {
      return Err;
    }
    var after := t[n..];
    var m := SkipBlanks(after);
    var u := after[m..];
    if u != [] && !IsSpecial(u[0]) {
      return Err;
    }
    if u != [] && u[0] == CLOSE {
      u := u[1..];
    }
    DigitsOf(t);
    var index := Value(Dec, t[..n]);
    r := if index < U64 then Ok((index, u)) else Err;
  }

  /** parse_path, collecting the components; on an error nothing is kept. `s` is the path from the
      current position on. */
  method ParsePathInto(path: seq<nat>) returns (r: Result<seq<Component>>)
    ensures r == ParsePath(path)
  {
    if path == [] {
      return Ok([Key([])]);
    }
    AfterNothing(Parse(path, false, true));
    hide Parse, IndexAt, After, KeyLen, BlankLen;
    var s := path;
    var afterIndex, afterDot := false, true;
    var comps: seq<Component> := [];
    while s != []
      invariant ParsePath(path) == After(comps, Parse(s, afterIndex, afterDot))
      decreases |s|
    {
      ParseStep(s, afterIndex, afterDot, comps);
      if s[0] == OPEN {
        var index := ReadIndex(s[1..]);
        if index == Err {
          return Err;
        }
        comps, s := comps + [Index(index.value.0)], index.value.1;
        afterDot, afterIndex := false, true;
      } else if s[0] == DOT {
        if afterDot {
          comps := comps + [Key([])];
        }
        s := s[1..];
        afterDot, afterIndex := true, false;
      } else if s[0] == CLOSE {
        return Err;
      } else {
        var len := KeyLen(s);
        KeyNotEmpty(s);
        if afterIndex {
          if BlankLen(s[..len]) != len {
            return Err;
          }
        } else {
          comps := comps + [Key(s[..len])];
        }
        s := s[len..];
        afterDot, afterIndex := false, false;
      }
    }
    ParseOver(comps, afterIndex, afterDot);
    if afterDot {
      comps := comps + [Key([])];
    }
    r := Ok(comps);
  }

  lemma KeyNotEmpty(s: seq<nat>)
    requires s != [] && !IsSpecial(s[0])
    ensures KeyLen(s) > 0
  {
  }

  lemma ParseOver(done: seq<Component>, afterIndex: bool, afterDot: bool)
    ensures After(done, Parse([], afterIndex, afterDot)) == Ok(if afterDot then done + [Key([])] else done)
  {
    assert done + [] == done;
  }

  lemma AfterNothing(r: Result<seq<Component>>)
    ensures After([], r) == r
  {
    if r.Ok? {
      assert [] + r.value == r.value;
    }
  }

  /** The cases of the main loop, from a non-empty text on. */
  lemma {:induction false} ParseStep(s: seq<nat>, afterIndex: bool, afterDot: bool, done: seq<Component>)
    requires s != []
    ensures var all := After(done, Parse(s, afterIndex, afterDot));
            if s[0] == OPEN then
              match IndexAt(s[1..])
              case Err => all == Err
              case Ok((n, rest)) => all == After(done + [Index(n)], Parse(rest, true, false))
            else if s[0] == DOT then
              all == After(if afterDot then done + [Key([])] else done, Parse(s[1..], false, true))
            else if s[0] == CLOSE then all == Err
            else
              var k := KeyLen(s);
              if !afterIndex then all == After(done + [Key(s[..k])], Parse(s[k..], false, false))
              else if BlankLen(s[..k]) == k then all == After(done, Parse(s[k..], false, false))
              else all == Err
  {
    if s[0] == OPEN {
      var i := IndexAt(s[1..]);
      if i.Ok? {
        AfterPrepend(done, Index(i.value.0), Parse(i.value.1, true, false));
      }
    } else if s[0] == DOT {
      AfterPrepend(done, Key([]), Parse(s[1..], false, true));
    } else if s[0] != CLOSE {
      AfterPrepend(done, Key(s[..KeyLen(s)]), Parse(s[KeyLen(s)..], false, false));
    }
    hide After, Prepend, IndexAt, KeyLen;
  }

  // ---------------------------------------------------------------------------------------------
  // Printing, then parsing.

  predicate CleanKey(k: seq<nat>) { forall i :: 0 <= i < |k| ==> !IsSpecial(k[i]) }

  predicate Clean(p: seq<Component>) { forall i :: 0 <= i < |p| && p[i].Key? ==> CleanKey(p[i].name) }

  /** An empty key directly before an index leaves no trace in the printed path. */
  predicate ShadowedAt(p: seq<Component>, i: nat) {
    i + 1 < |p| && p[i] == Key([]) && p[i + 1].Index?
  }

  /** What survives printing and parsing. */
  function Visible(p: seq<Component>): seq<Component> {
    if p == [] then []
    else (if ShadowedAt(p, 0) then [] else [p[0]]) + Visible(p[1..])
  }

  lemma {:induction false} DigitLenOf(ds: seq<nat>, rest: seq<nat>)
    requires AllDigits(Dec, ds) && (rest == [] || !IsDecimal(rest[0]))
    ensures DigitLen(ds + rest) == |ds|
  {
    if ds != [] {
      assert (ds + rest)[1..] == ds[1..] + rest;
      DigitLenOf(ds[1..], rest);
    } else {
      assert ds + rest == rest;
    }
  }

  lemma {:induction false} KeyLenOf(k: seq<nat>, rest: seq<nat>)
    requires CleanKey(k) && (rest == [] || IsSpecial(rest[0]))
    ensures KeyLen(k + rest) == |k|
  {
    if k != [] {
      assert (k + rest)[1..] == k[1..] + rest;
      KeyLenOf(k[1..], rest);
    } else {
      assert k + rest == rest;
    }
  }

  lemma {:induction false} IndexPrinted(n: nat, rest: seq<nat>)
    requires n < U64
    ensures IndexAt(ToDigits(Dec, n) + [CLOSE] + rest) == Ok((n, rest))
  {
    var ds := ToDigits(Dec, n);
    var s := ds + [CLOSE] + rest;
    DigitsHaveValue(Dec, n);
    assert s == ds + ([CLOSE] + rest);
    DigitLenOf(ds, [CLOSE] + rest);
    hide ToDigits, Value;
    assert BlankLen(s) == 0 && s[0..] == s;
    assert s[..|ds|] == ds;
    var after := s[|ds|..];
    assert after == [CLOSE] + rest;
    assert BlankLen(after) == 0 && after[0..] == after;
    assert after[1..] == rest;
  }

  /** One step of the parser for each kind of component. */
  lemma {:induction false} ParseIndex(n: nat, rest: seq<nat>, afterIndex: bool, afterDot: bool)
    requires n < U64
    ensures Parse(PrintComponent(Index(n), false) + rest, afterIndex, afterDot)
         == Prepend(Index(n), Parse(rest, true, false))
  {
    hide IndexAt, ToDigits;
    IndexPrinted(n, rest);
    var s := PrintComponent(Index(n), false) + rest;
    assert s[1..] == ToDigits(Dec, n) + [CLOSE] + rest;
  }

  lemma {:induction false} ParseDot(rest: seq<nat>, afterIndex: bool, afterDot: bool)
    ensures var r := Parse(rest, false, true);
            Parse([DOT] + rest, afterIndex, afterDot) == if afterDot then Prepend(Key([]), r) else r
  {
    assert ([DOT] + rest)[1..] == rest;
  }

  lemma {:induction false} ParseKey(k: seq<nat>, rest: seq<nat>, afterDot: bool)
    requires k != [] && CleanKey(k) && (rest == [] || IsSpecial(rest[0]))
    ensures Parse(k + rest, false, afterDot) == Prepend(Key(k), Parse(rest, false, false))
  {
    KeyLenOf(k, rest);
    var s := k + rest;
    assert s[..|k|] == k && s[|k|..] == rest && s[0] == k[0];
    hide IndexAt, KeyLen;
  }

  lemma {:induction false} TailStep(p: seq<Component>)
    ensures p == [] ==> PrintTail(p) == []
    ensures p != [] ==> PrintTail(p) == PrintComponent(p[0], false) + PrintTail(p[1..])
    ensures p != [] && p[0].Key? ==> PrintTail(p) == [DOT] + (p[0].name + PrintTail(p[1..]))
    ensures PrintTail(p) == [] || IsSpecial(PrintTail(p)[0])
  {
    if p != [] && p[0].Key? {
      assert [DOT] + p[0].name + PrintTail(p[1..]) == [DOT] + (p[0].name + PrintTail(p[1..]));
    }
  }

  lemma {:induction false} VisibleStep(c: Component, p: seq<Component>)
    ensures Visible([c] + p) == (if c == Key([]) && p != [] && p[0].Index? then [] else [c]) + Visible(p)
  {
    assert ([c] + p)[1..] == p;
  }

  lemma {:induction false} TailIsParsed(p: seq<Component>, afterIndex: bool)
    requires Clean(p) && IndexesFit(p)
    ensures Parse(PrintTail(p), afterIndex, false) == Ok(Visible(p))
    decreases |p|, 1
  {
    TailStep(p);
    if p != [] {
      assert p == [p[0]] + p[1..];
      VisibleStep(p[0], p[1..]);
      hide Parse, PrintTail, PrintComponent, Visible;
      match p[0]
      case Index(n) =>
        ParseIndex(n, PrintTail(p[1..]), afterIndex, false);
        TailIsParsed(p[1..], true);
      case Key(k) =>
        ParseDot(k + PrintTail(p[1..]), afterIndex, false);
        KeyIsParsed(k, p[1..]);
    }
  }

  /** A key that has just been announced, by a dot or by the start of the path. */
  lemma {:induction false} KeyIsParsed(k: seq<nat>, p: seq<Component>)
    requires CleanKey(k) && Clean(p) && IndexesFit(p)
    ensures Parse(k + PrintTail(p), false, true) == Ok(Visible([Key(k)] + p))
    decreases |p|, 2
  {
    hide Parse, PrintTail, PrintComponent, Visible;
    var rest := PrintTail(p);
    TailStep(p);
    VisibleStep(Key(k), p);
    if k != [] {
      ParseKey(k, rest, true);
      TailIsParsed(p, false);
    } else {
      assert k + rest == rest;
      if p == [] {
        ParseEnd();
        assert [Key(k)] + [] == [Key(k)];
      } else {
        assert p == [p[0]] + p[1..];
        VisibleStep(p[0], p[1..]);
        match p[0]
        case Key(k2) =>
          ParseDot(k2 + PrintTail(p[1..]), false, true);
          KeyIsParsed(k2, p[1..]);
        case Index(n) =>
          ParseIndex(n, PrintTail(p[1..]), false, true);
          TailIsParsed(p[1..], true);
          assert [] + Visible(p) == Visible(p);
      }
    }
  }

  lemma ParseEnd()
    ensures Parse([], false, true) == Ok([Key([])]) && Visible([]) == []
  {
  }

  /** Parsing a printed path gives its components back, except empty keys directly before an index. */
  lemma {:induction false} PrintThenParse(p: seq<Component>)
    requires p != [] && Clean(p) && IndexesFit(p)
    ensures ParsePath(Printed(p)) == Ok(Visible(p))
  {
    assert p == [p[0]] + p[1..];
    VisibleStep(p[0], p[1..]);
    hide Parse, PrintTail, Visible;
    match p[0]
    case Key(k) =>
      KeyIsParsed(k, p[1..]);
      assert [] + k == k;
    case Index(n) =>
      ParseIndex(n, PrintTail(p[1..]), false, true);
      TailIsParsed(p[1..], true);
  }

  // ---------------------------------------------------------------------------------------------
  // Exactly which paths survive.

  lemma {:induction false} ParsedIsClean(s: seq<nat>, afterIndex: bool, afterDot: bool)
    requires !(afterIndex && afterDot)
    ensures var r := Parse(s, afterIndex, afterDot);
            r.Ok? ==> Clean(r.value) && (afterDot ==> r.value != [])
    decreases |s|
  {
    if s != [] {
      if s[0] == OPEN {
        var i := IndexAt(s[1..]);
        hide IndexAt;
        if i.Ok? {
          ParsedIsClean(i.value.1, true, false);
        }
      } else if s[0] == DOT {
        ParsedIsClean(s[1..], false, true);
      } else if s[0] != CLOSE {
        var k := KeyLen(s);
        ParsedIsClean(s[k..], false, false);
        assert CleanKey(s[..k]);
      }
    }
  }

  lemma {:induction false} VisibleIsAll(p: seq<Component>)
    ensures |Visible(p)| <= |p|
    ensures Visible(p) == p <==> forall i :: 0 <= i < |p| ==> !ShadowedAt(p, i)
  {
    if p != [] {
      VisibleIsAll(p[1..]);
      if ShadowedAt(p, 0) {
      } else {
        assert Visible(p)[1..] == Visible(p[1..]);
        assert forall i :: 0 < i < |p| ==> (ShadowedAt(p, i) <==> ShadowedAt(p[1..], i - 1));
        if i :| 0 <= i < |p[1..]| && ShadowedAt(p[1..], i) {
          assert ShadowedAt(p, i + 1);
        }
      }
    }
  }

  /** Printing and parsing gives a path back exactly when it has a component, its keys contain none of
      `.`, `[` and `]`, and no empty key stands directly before an index. */
  lemma SurvivesIff(p: seq<Component>)
    requires IndexesFit(p)
    ensures ParsePath(Printed(p)) == Ok(p)
       <==> p != [] && Clean(p) && forall i :: 0 <= i < |p| ==> !ShadowedAt(p, i)
  {
    ParsedIsClean(Printed(p), false, true);
    if p != [] && Clean(p) {
      PrintThenParse(p);
      VisibleIsAll(p);
    }
  }
}
