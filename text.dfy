/** String operations the service relies on: Python's `str.isspace`, `str.strip`,
    `str.split` and `str.join`, and SQLite's ordering of TEXT values. */
module Text {

  /** Python's `str.isspace()` for one character. */
  predicate IsSpace(c: char) {
    c == ' ' || ('\t' <= c <= '\r') || ('\U{1c}' <= c <= '\U{1f}')
    || c == '\U{85}' || c == '\U{a0}' || c == '\U{1680}'
    || ('\U{2000}' <= c <= '\U{200a}') || c == '\U{2028}' || c == '\U{2029}'
    || c == '\U{202f}' || c == '\U{205f}' || c == '\U{3000}'
  }

  /** Neither the first nor the last character is white space. */
  predicate Stripped(s: string) {
    s == [] || (!IsSpace(s[0]) && !IsSpace(s[|s| - 1]))
  }

  /** `s.lstrip()`: drops the leading white space and nothing else. */
  function StripStart(s: string): (r: string)
    ensures |r| <= |s| && r == s[|s| - |r|..]
    ensures forall k :: 0 <= k < |s| - |r| ==> IsSpace(s[k])
    ensures r == [] || !IsSpace(r[0])
    ensures forall c :: c in r ==> c in s
  {
    if |s| > 0 && IsSpace(s[0]) then
      assert s == [s[0]] + s[1..];
      StripStart(s[1..])
    else s
  }

  /** `s.rstrip()`: drops the trailing white space and nothing else. */
  function StripEnd(s: string): (r: string)
    ensures |r| <= |s| && r == s[..|r|]
    ensures forall k :: |r| <= k < |s| ==> IsSpace(s[k])
    ensures r == [] || !IsSpace(r[|r| - 1])
    ensures forall c :: c in r ==> c in s
  {
    if |s| > 0 && IsSpace(s[|s| - 1]) then
      assert s == s[..|s| - 1] + [s[|s| - 1]];
      StripEnd(s[..|s| - 1])
    else s
  }

  /** `s.strip()`: the text between the leading and the trailing white space. */
  function Strip(s: string): (r: string)
    ensures Stripped(r)
    ensures r == [] <==> forall k :: 0 <= k < |s| ==> IsSpace(s[k])
    ensures Stripped(s) ==> r == s
    ensures forall c :: c in r ==> c in s
  {
    var t := StripStart(s);
    var r := StripEnd(t);
    assert r != [] ==> r[0] == t[0];
    assert r == [] ==> t == [];
    r
  }

  /** The stripped text is the slice of the input left between its leading and its trailing
      white space. */
  lemma StripSlice(s: string)
    ensures exists i :: Trimmed(s, i, Strip(s))
  {
    var t := StripStart(s);
    var r := StripEnd(t);
    var i := |s| - |t|;
    assert r == Strip(s);
    assert r == s[i..i + |r|];
    assert forall k :: i + |r| <= k < |s| ==> IsSpace(s[k]) by {
      forall k | i + |r| <= k < |s| ensures IsSpace(s[k]) { assert s[k] == t[k - i]; }
    }
    assert Trimmed(s, i, r);
  }

  /** r is the part of s from position i on that leaves only white space before and after it. */
  predicate Trimmed(s: string, i: int, r: string) {
    && 0 <= i && i + |r| <= |s| && r == s[i..i + |r|]
    && (forall k :: 0 <= k < i ==> IsSpace(s[k]))
    && (forall k :: i + |r| <= k < |s| ==> IsSpace(s[k]))
  }

  /** `s.split(sep)`: the pieces between separators, possibly empty; there is always one more
      piece than there are separators. */
  function Split(s: string, sep: char): (parts: seq<string>)
    ensures |parts| >= 1
  {
    if |s| == 0 then [""]
    else
      var rest := Split(s[1..], sep);
      if s[0] == sep then [""] + rest
      else [[s[0]] + rest[0]] + rest[1..]
  }

  /** No piece of a split contains the separator. */
  lemma {:induction false} SplitPieces(s: string, sep: char)
    ensures forall i :: 0 <= i < |Split(s, sep)| ==> sep !in Split(s, sep)[i]
  {
    if |s| > 0 {
      SplitPieces(s[1..], sep);
      var rest := Split(s[1..], sep);
      if s[0] != sep {
        assert sep !in [s[0]] + rest[0];
      }
    }
  }

  /** `sep.join(parts)`. */
  function Join(parts: seq<string>, sep: char): string {
    if |parts| == 0 then ""
    else if |parts| == 1 then parts[0]
    else parts[0] + [sep] + Join(parts[1..], sep)
  }

  /** Splitting and joining back with the same separator gives the original text. */
  lemma {:induction false} JoinSplit(s: string, sep: char)
    ensures Join(Split(s, sep), sep) == s
  {
    if |s| > 0 {
      var rest := Split(s[1..], sep);
      JoinSplit(s[1..], sep);
      if s[0] == sep {
        assert Split(s, sep) == [""] + rest;
        assert ([""] + rest)[1..] == rest;
        assert s == [sep] + s[1..];
      } else {
        var parts := [[s[0]] + rest[0]] + rest[1..];
        assert Split(s, sep) == parts;
        if |rest| == 1 {
          assert Join(parts, sep) == [s[0]] + rest[0];
        } else {
          assert parts[1..] == rest[1..];
          assert Join(rest, sep) == rest[0] + [sep] + Join(rest[1..], sep);
        }
        assert s == [s[0]] + s[1..];
      }
    }
  }

  /** One step of Split: a leading separator opens a new piece, another character joins the first. */
  lemma SplitCons(c: char, t: string, sep: char)
    ensures Split([c] + t, sep) ==
      if c == sep then [""] + Split(t, sep) else [[c] + Split(t, sep)[0]] + Split(t, sep)[1..]
  {
    assert ([c] + t)[0] == c && ([c] + t)[1..] == t;
  }

  /** The step of SplitCons commutes with appending further pieces. */
  lemma ConsPieces(c: char, sep: char, restA: seq<string>, restB: seq<string>)
    requires |restA| >= 1
    ensures (if c == sep then [""] + (restA + restB) else [[c] + (restA + restB)[0]] + (restA + restB)[1..])
         == (if c == sep then [""] + restA else [[c] + restA[0]] + restA[1..]) + restB
  {
    if c != sep {
      assert (restA + restB)[1..] == restA[1..] + restB;
    }
  }

  /** A separator splits the text into the pieces of either side. */
  lemma {:induction false} SplitConcat(a: string, b: string, sep: char)
    ensures Split(a + [sep] + b, sep) == Split(a, sep) + Split(b, sep)
  {
    if |a| == 0 {
      assert a + [sep] + b == [sep] + b;
      SplitCons(sep, b, sep);
    } else {
      var c, a' := a[0], a[1..];
      assert a == [c] + a';
      assert a + [sep] + b == [c] + (a' + [sep] + b);
      SplitConcat(a', b, sep);
      SplitCons(c, a' + [sep] + b, sep);
      SplitCons(c, a', sep);
      ConsPieces(c, sep, Split(a', sep), Split(b, sep));
    }
  }

  /** Text without the separator is a single piece. */
  lemma {:induction false} SplitWithoutSeparator(s: string, sep: char)
    requires sep !in s
    ensures Split(s, sep) == [s]
  {
    if |s| > 0 {
      assert sep !in s[1..] by { assert forall k :: 0 <= k < |s| - 1 ==> s[1..][k] == s[k + 1]; }
      SplitWithoutSeparator(s[1..], sep);
      assert [s[0]] + s[1..] == s;
    }
  }

  /** Joining pieces that do not contain the separator and splitting again gives the pieces back. */
  lemma {:induction false} SplitJoin(parts: seq<string>, sep: char)
    requires |parts| >= 1
    requires forall i :: 0 <= i < |parts| ==> sep !in parts[i]
    ensures Split(Join(parts, sep), sep) == parts
  {
    if |parts| == 1 {
      SplitWithoutSeparator(parts[0], sep);
    } else {
      SplitJoin(parts[1..], sep);
      SplitWithoutSeparator(parts[0], sep);
      SplitConcat(parts[0], Join(parts[1..], sep), sep);
      assert [parts[0]] + parts[1..] == parts;
    }
  }

  /** `s.split(sep)[-1]`. */
  function LastPiece(s: string, sep: char): string {
    var parts := Split(s, sep);
    parts[|parts| - 1]
  }

  /** The last piece is whatever follows the last separator. */
  lemma LastPieceAfterSeparator(prefix: string, name: string, sep: char)
    requires sep !in name
    ensures LastPiece(prefix + [sep] + name, sep) == name
  {
    SplitConcat(prefix, name, sep);
    SplitWithoutSeparator(name, sep);
  }

  /** `[p.strip() for p in parts if p.strip()]`. */
  function NonBlankStripped(parts: seq<string>): (items: seq<string>)
    ensures forall i :: 0 <= i < |items| ==> items[i] != [] && Stripped(items[i])
    ensures |items| <= |parts|
  {
    if parts == [] then []
    else
      var t := Strip(parts[0]);
      (if t == [] then [] else [t]) + NonBlankStripped(parts[1..])
  }

  /** A user-typed comma list: `[u.strip() for u in s.split(',') if u.strip()]`. */
  function CommaItems(s: string): (items: seq<string>)
    ensures forall i :: 0 <= i < |items| ==> items[i] != [] && Stripped(items[i]) && ',' !in items[i]
    ensures forall x :: x in items <==> x != [] && exists p :: p in Split(s, ',') && Strip(p) == x
  {
    var parts := Split(s, ',');
    var items := NonBlankStripped(parts);
    assert forall i :: 0 <= i < |items| ==> ',' !in items[i] by {
      SplitPieces(s, ',');
      NonBlankStrippedFrom(parts, ',');
    }
    NonBlankStrippedMembers(parts);
    items
  }

  /** The items are exactly the non-blank stripped pieces. */
  lemma {:induction false} NonBlankStrippedMembers(parts: seq<string>)
    ensures forall x :: x in NonBlankStripped(parts) <==> x != [] && exists p :: p in parts && Strip(p) == x
  {
    if parts != [] {
      NonBlankStrippedMembers(parts[1..]);
      var t := Strip(parts[0]);
      var head: seq<string> := if t == [] then [] else [t];
      assert NonBlankStripped(parts) == head + NonBlankStripped(parts[1..]);
      assert parts == [parts[0]] + parts[1..];
      forall x | x != [] && (exists p :: p in parts && Strip(p) == x) ensures x in NonBlankStripped(parts) {
        var p :| p in parts && Strip(p) == x;
        if p != parts[0] {
          assert p in parts[1..];
        }
      }
    }
  }

  /** Every item of NonBlankStripped is a stripped piece, so it has no character the pieces lack. */
  lemma {:induction false} NonBlankStrippedFrom(parts: seq<string>, c: char)
    requires forall i :: 0 <= i < |parts| ==> c !in parts[i]
    ensures forall i :: 0 <= i < |NonBlankStripped(parts)| ==> c !in NonBlankStripped(parts)[i]
  {
    if parts != [] {
      NonBlankStrippedFrom(parts[1..], c);
      var t := Strip(parts[0]);
      assert c !in t;
      var head: seq<string> := if t == [] then [] else [t];
      assert NonBlankStripped(parts) == head + NonBlankStripped(parts[1..]);
    }
  }

  /** Stripping clean pieces keeps all of them. */
  lemma {:induction false} NonBlankStrippedOfClean(parts: seq<string>)
    requires forall p :: p in parts ==> p != [] && Stripped(p)
    ensures NonBlankStripped(parts) == parts
  {
    if parts != [] {
      assert parts[0] in parts;
      assert forall p :: p in parts[1..] ==> p in parts;
      NonBlankStrippedOfClean(parts[1..]);
      assert [parts[0]] + parts[1..] == parts;
      NonBlankStrippedKeeps(parts[0], parts[1..]);
    }
  }

  /** A non-blank stripped piece is kept as it is. */
  lemma NonBlankStrippedKeeps(p: string, rest: seq<string>)
    requires p != [] && Stripped(p)
    ensures NonBlankStripped([p] + rest) == [p] + NonBlankStripped(rest)
  {
    assert ([p] + rest)[0] == p && ([p] + rest)[1..] == rest;
    assert Strip(p) == p;
  }

  /** A comma-joined list of non-empty, stripped ids without commas reads back as the same list. */
  lemma CommaItemsOfJoin(ids: seq<string>)
    requires |ids| >= 1
    requires forall i :: 0 <= i < |ids| ==> ids[i] != [] && Stripped(ids[i]) && ',' !in ids[i]
    ensures CommaItems(Join(ids, ',')) == ids
  {
    SplitJoin(ids, ',');
    assert forall p :: p in ids ==> p != [] && Stripped(p);
    NonBlankStrippedOfClean(ids);
  }

  /** SQLite's BINARY collation: compares code points (the order of their UTF-8 bytes) from the
      left, and a proper prefix sorts first. */
  predicate TextLess(a: string, b: string) {
    if |a| == 0 then |b| > 0
    else if |b| == 0 then false
    else a[0] < b[0] || (a[0] == b[0] && TextLess(a[1..], b[1..]))
  }

  lemma {:induction false} TextLessIrreflexive(a: string)
    ensures !TextLess(a, a)
  {
    if |a| > 0 { TextLessIrreflexive(a[1..]); }
  }

  lemma {:induction false} TextLessAsymmetric(a: string, b: string)
    requires TextLess(a, b)
    ensures !TextLess(b, a)
  {
    if |a| > 0 && |b| > 0 && a[0] == b[0] { TextLessAsymmetric(a[1..], b[1..]); }
  }

  lemma {:induction false} TextLessTransitive(a: string, b: string, c: string)
    requires TextLess(a, b) && TextLess(b, c)
    ensures TextLess(a, c)
  {
    if |a| > 0 && a[0] == b[0] && b[0] == c[0] { TextLessTransitive(a[1..], b[1..], c[1..]); }
  }

  /** Comparing fixed-width fields: the first field decides unless it ties. */
  lemma {:induction false} TextLessConcat(a1: string, a2: string, b1: string, b2: string)
    requires |a1| == |b1|
    ensures TextLess(a1 + a2, b1 + b2) <==> TextLess(a1, b1) || (a1 == b1 && TextLess(a2, b2))
    ensures a1 + a2 == b1 + b2 <==> a1 == b1 && a2 == b2
  {
    if |a1| > 0 {
      TextLessConcat(a1[1..], a2, b1[1..], b2);
      assert (a1 + a2)[1..] == a1[1..] + a2;
      assert (b1 + b2)[1..] == b1[1..] + b2;
      assert a1 == b1 <==> a1[0] == b1[0] && a1[1..] == b1[1..] by {
        if a1[0] == b1[0] && a1[1..] == b1[1..] { assert a1 == [a1[0]] + a1[1..]; assert b1 == [b1[0]] + b1[1..]; }
      }
      assert a1 + a2 == b1 + b2 <==> (a1 + a2)[0] == (b1 + b2)[0] && (a1 + a2)[1..] == (b1 + b2)[1..] by {
        var x, y := a1 + a2, b1 + b2;
        if x[0] == y[0] && x[1..] == y[1..] { assert x == [x[0]] + x[1..]; assert y == [y[0]] + y[1..]; }
      }
    } else {
      assert a1 == [] && b1 == [];
      assert a1 + a2 == a2 && b1 + b2 == b2;
      TextLessIrreflexive(a1);
    }
  }

  predicate IsDigit(c: char) { '0' <= c <= '9' }

  function DigitChar(n: int): (c: char)
    requires 0 <= n < 10
    ensures IsDigit(c) && DigitValue(c) == n
  {
    (n + '0' as int) as char
  }

  function DigitValue(c: char): int
    requires IsDigit(c)
  {
    c as int - '0' as int
  }

  /** Python's `str(n)` for an integer, as in the throttle's messages: the decimal digits of |n|
      without leading zeros, after a '-' when n is negative. */
  function IntToString(n: int): (s: string)
    ensures |s| >= 1
    ensures n >= 0 ==> AllDigits(s) && DecimalValue(s) == n && (|s| > 1 ==> s[0] != '0')
    ensures n < 0 ==> s[0] == '-' && AllDigits(s[1..]) && DecimalValue(s[1..]) == -n && (|s| > 2 ==> s[1] != '0')
  {
    if n < 0 then
      var d := NatToString(-n);
      assert ("-" + d)[1..] == d;
      "-" + d
    else NatToString(n)
  }

  /** The decimal digits of n without leading zeros. */
  function NatToString(n: nat): (s: string)
    ensures |s| >= 1 && AllDigits(s) && DecimalValue(s) == n
    ensures |s| > 1 ==> s[0] != '0'
  {
    if n < 10 then [DigitChar(n)]
    else
      var d := NatToString(n / 10);
      var s := d + [DigitChar(n % 10)];
      assert s[..|s| - 1] == d;
      s
  }

  predicate AllDigits(s: string) {
    forall k :: 0 <= k < |s| ==> IsDigit(s[k])
  }

  /** The number a string of decimal digits denotes. */
  function DecimalValue(s: string): nat
    requires AllDigits(s)
  {
    if s == [] then 0 else DecimalValue(s[..|s| - 1]) * 10 + DigitValue(s[|s| - 1])
  }
}
