/**
 * The canonical cache key of a geocoding request (`_geocode_key` in
 * loc/gmaps_cached.py): each argument becomes `name=<quoted normalized value>`,
 * the parts are sorted and joined with ", ". No arguments is an error.
 */
module GeocodeKey {
  import opened Wrappers
  import opened Strings
  import opened Sorting
  import opened Sequences

  /** The `ValueError` raised for an empty argument list. */
  datatype KeyError = EmptyParameters

  /** Keyword arguments in call order: (name, value as text). */
  type Kwargs = seq<(string, string)>

  /** Python 2.7 `unicode.isspace`. */
  predicate IsSpace(c: char)
  {
    c == ' ' || '\t' <= c <= '\r' || '\U{1C}' <= c <= '\U{1F}' || c == '\U{85}' || c == '\U{A0}' ||
    c == '\U{1680}' || c == '\U{180E}' || '\U{2000}' <= c <= '\U{200A}' || c == '\U{2028}' ||
    c == '\U{2029}' || c == '\U{202F}' || c == '\U{205F}' || c == '\U{3000}'
  }

  predicate AllSpace(s: string)
  {
    forall i :: 0 <= i < |s| ==> IsSpace(s[i])
  }

  lemma AllSpaceCons(c: char, s: string)
    ensures AllSpace([c] + s) <==> IsSpace(c) && AllSpace(s)
  {
    if IsSpace(c) && AllSpace(s) {
      forall i | 0 <= i < |[c] + s| ensures IsSpace(([c] + s)[i]) {
        if i > 0 {
          assert ([c] + s)[i] == s[i - 1];
        }
      }
    }
    if AllSpace([c] + s) {
      assert IsSpace(([c] + s)[0]);
      forall i | 0 <= i < |s| ensures IsSpace(s[i]) {
        assert s[i] == ([c] + s)[i + 1];
      }
    }
  }

  lemma AllSpaceSnoc(s: string, c: char)
    ensures AllSpace(s + [c]) <==> AllSpace(s) && IsSpace(c)
  {
    if AllSpace(s + [c]) {
      assert IsSpace((s + [c])[|s|]);
      forall i | 0 <= i < |s| ensures IsSpace(s[i]) {
        assert s[i] == (s + [c])[i];
      }
    }
  }

  /** `s` without its leading white space: the removed prefix is all white space. */
  function StripLeft(s: string): (t: string)
    ensures |t| <= |s| && t == s[|s| - |t|..]
    ensures t == [] || !IsSpace(t[0])
    ensures AllSpace(s[..|s| - |t|])
  {
    if s != [] && IsSpace(s[0]) then
      var t := StripLeft(s[1..]);
      assert s[..|s| - |t|] == [s[0]] + s[1..][..|s| - 1 - |t|];
      AllSpaceCons(s[0], s[1..][..|s| - 1 - |t|]);
      t
    else s
  }

  /** `s` without its trailing white space: the removed suffix is all white space. */
  function StripRight(s: string): (t: string)
    ensures |t| <= |s| && t == s[..|t|]
    ensures t == [] || !IsSpace(t[|t| - 1])
    ensures AllSpace(s[|t|..])
  {
    if s != [] && IsSpace(s[|s| - 1]) then
      var t := StripRight(s[..|s| - 1]);
      assert s[|t|..] == s[..|s| - 1][|t|..] + [s[|s| - 1]];
      AllSpaceSnoc(s[..|s| - 1][|t|..], s[|s| - 1]);
      t
    else s
  }

  /** `unicode.strip()`: drop leading and trailing white space. */
  function Strip(s: string): (t: string)
    ensures t == [] || (!IsSpace(t[0]) && !IsSpace(t[|t| - 1]))
  {
    var l := StripLeft(s);
    var t := StripRight(l);
    assert t != [] ==> t[0] == l[0];
    t
  }

  /** `unicode.lower()` on the ASCII letters; every other character is kept. */
  function LowerChar(c: char): char
  {
    if 'A' <= c <= 'Z' then (c as int + 32) as char else c
  }

  /**
   * `unicode.lower()` on a string: no capital ASCII letter is left, only capitals
   * change, and white space stays where it was.
   */
  function Lower(s: string): (t: string)
    ensures |t| == |s|
    ensures forall i :: 0 <= i < |t| ==> !('A' <= t[i] <= 'Z')
    ensures forall i :: 0 <= i < |t| && t[i] != s[i] ==> 'A' <= s[i] <= 'Z'
    ensures forall i :: 0 <= i < |t| ==> IsSpace(t[i]) == IsSpace(s[i])
  {
    seq(|s|, i requires 0 <= i < |s| => LowerChar(s[i]))
  }

  /** A string without capitals is its own lower case; in particular lowering twice is lowering once. */
  lemma LowerNoCapitals(s: string)
    requires forall i :: 0 <= i < |s| ==> !('A' <= s[i] <= 'Z')
    ensures Lower(s) == s
  {
  }

  lemma LowerIdempotent(s: string)
    ensures Lower(Lower(s)) == Lower(s)
  {
    LowerNoCapitals(Lower(s));
  }

  /**
   * The value as it enters the key: `unicode(v).strip().lower()`; it neither
   * begins nor ends with white space and holds no capital ASCII letter.
   */
  function Normalize(v: string): (n: string)
    ensures n == [] || (!IsSpace(n[0]) && !IsSpace(n[|n| - 1]))
    ensures forall i :: 0 <= i < |n| ==> !('A' <= n[i] <= 'Z')
  {
    Lower(Strip(v))
  }

  /** Normalizing a normalized value changes nothing. */
  lemma NormalizeIdempotent(v: string)
    ensures Normalize(Normalize(v)) == Normalize(v)
  {
    var n := Normalize(v);
    assert StripLeft(n) == n;
    assert StripRight(n) == n;
    LowerNoCapitals(n);
  }

  /** The body of `%r` of a unicode string: backslash and quote are escaped. */
  function Escape(s: string): (e: string)
    ensures |e| >= |s|
  {
    if s == [] then ""
    else EscapeChar(s[0]) + Escape(s[1..])
  }

  function EscapeChar(c: char): (e: string)
    ensures 1 <= |e| <= 2
  {
    if c == '\\' then "\\\\" else if c == '\'' then "\\'" else [c]
  }

  /** `%r` of a unicode string: the escaped text between `u'` and `'`. */
  function Quote(s: string): (q: string)
    ensures |q| >= 3 && q[..2] == "u'" && q[|q| - 1] == '\''
    ensures |q| >= |s| + 3
  {
    "u'" + Escape(s) + "'"
  }

  /** `'%s=%r' % (k, unicode(v).strip().lower())`: the name, `=`, then the quoted value. */
  function Part(arg: (string, string)): (p: string)
    ensures arg.0 + "=u'" <= p && p[|p| - 1] == '\''
  {
    var q := Quote(Normalize(arg.1));
    PrefixAfterName(arg.0, q);
    arg.0 + "=" + q
  }

  lemma PrefixAfterName(name: string, q: string)
    requires |q| >= 2 && q[..2] == "u'"
    ensures name + "=u'" <= name + "=" + q
  {
    var p := name + "=" + q;
    assert p[..|name| + 3] == name + "=u'" by {
      assert p[..|name| + 1] == name + "=";
      assert p[|name| + 1..|name| + 3] == q[..2];
      assert p[..|name| + 3] == p[..|name| + 1] + p[|name| + 1..|name| + 3];
    }
  }

  function Parts(kwargs: Kwargs): seq<string>
  {
    MapSeq(Part, kwargs)
  }

  /** Python's string order: code point by code point, a proper prefix first. */
  predicate LexLe(a: string, b: string)
  {
    a == [] || (b != [] && (a[0] < b[0] || (a[0] == b[0] && LexLe(a[1..], b[1..]))))
  }

  /** `_geocode_key(**kwargs)` */
  function Key(kwargs: Kwargs): (r: Result<string, KeyError>)
    ensures r.Err? <==> kwargs == []
  {
    if kwargs == [] then Err(EmptyParameters)
    else
      LexTotalOrder();
      Ok(Join(Sort(Parts(kwargs), LexLe), ", "))
  }

  lemma {:induction false} LexTotal(a: string, b: string)
    ensures LexLe(a, b) || LexLe(b, a)
  {
    if a != [] && b != [] && a[0] == b[0] {
      LexTotal(a[1..], b[1..]);
    }
  }

  lemma {:induction false} LexTransitive(a: string, b: string, c: string)
    requires LexLe(a, b) && LexLe(b, c)
    ensures LexLe(a, c)
  {
    if a != [] && b != [] && c != [] && a[0] == b[0] == c[0] {
      LexTransitive(a[1..], b[1..], c[1..]);
    }
  }

  lemma {:induction false} LexAntisymmetric(a: string, b: string)
    requires LexLe(a, b) && LexLe(b, a)
    ensures a == b
  {
    if a != [] && b != [] {
      LexAntisymmetric(a[1..], b[1..]);
      assert a == [a[0]] + a[1..] && b == [b[0]] + b[1..];
    }
  }

  lemma LexTotalOrder()
    ensures TotalOrder(LexLe)
  {
    forall a, b ensures LexLe(a, b) || LexLe(b, a) {
      LexTotal(a, b);
    }
    forall a, b, c | LexLe(a, b) && LexLe(b, c) ensures LexLe(a, c) {
      LexTransitive(a, b, c);
    }
    forall a, b | LexLe(a, b) && LexLe(b, a) ensures a == b {
      LexAntisymmetric(a, b);
    }
  }

  /** The key does not depend on the order the arguments are passed in. */
  lemma KeyOrderIndependent(a: Kwargs, b: Kwargs)
    requires multiset(a) == multiset(b)
    ensures Key(a) == Key(b)
  {
    if a != [] {
      assert b != [] by {
        assert a[0] in multiset(b);
      }
      MapSeqPermutation(Part, a, b);
      LexTotalOrder();
      SortPermutationInvariant(Parts(a), Parts(b), LexLe);
    }
  }

  // Letter case and surrounding white space.

  lemma {:induction false} StripLeftPadding(pad: string, s: string)
    requires AllSpace(pad)
    ensures StripLeft(pad + s) == StripLeft(s)
  {
    if pad != [] {
      assert (pad + s)[1..] == pad[1..] + s;
      StripLeftPadding(pad[1..], s);
    } else {
      assert pad + s == s;
    }
  }

  lemma {:induction false} StripRightPadding(s: string, pad: string)
    requires AllSpace(pad)
    ensures StripRight(s + pad) == StripRight(s)
  {
    if pad != [] {
      assert (s + pad)[..|s + pad| - 1] == s + pad[..|pad| - 1];
      StripRightPadding(s, pad[..|pad| - 1]);
    } else {
      assert s + pad == s;
    }
  }

  lemma {:induction false} StripLeftAppend(x: string, y: string)
    ensures StripLeft(x + y) == if AllSpace(x) then StripLeft(y) else StripLeft(x) + y
  {
    if x == [] {
      assert x + y == y;
    } else {
      assert (x + y)[1..] == x[1..] + y;
      assert x == [x[0]] + x[1..];
      AllSpaceCons(x[0], x[1..]);
      if IsSpace(x[0]) {
        StripLeftAppend(x[1..], y);
      }
    }
  }

  /** Surrounding white space does not change the normalized value. */
  lemma StripPadding(pad1: string, s: string, pad2: string)
    requires AllSpace(pad1) && AllSpace(pad2)
    ensures Strip(pad1 + s + pad2) == Strip(s)
  {
    assert pad1 + s + pad2 == pad1 + (s + pad2);
    StripLeftPadding(pad1, s + pad2);
    StripLeftAppend(s, pad2);
    StripLeftAppend(s, []);
    assert s + [] == s;
    if AllSpace(s) {
      StripLeftAppend(pad2, []);
      assert pad2 + [] == pad2;
    } else {
      StripRightPadding(StripLeft(s), pad2);
    }
  }

  /** Lowering a character never makes or unmakes white space. */
  lemma LowerKeepsSpace(c: char)
    ensures IsSpace(LowerChar(c)) == IsSpace(c)
  {
  }

  lemma {:induction false} LowerStripLeft(s: string)
    ensures Lower(StripLeft(s)) == StripLeft(Lower(s))
  {
    if s != [] {
      var l := Lower(s);
      LowerKeepsSpace(s[0]);
      assert l[0] == LowerChar(s[0]);
      if IsSpace(s[0]) {
        assert l[1..] == Lower(s[1..]);
        LowerStripLeft(s[1..]);
      }
    }
  }

  lemma {:induction false} LowerStripRight(s: string)
    ensures Lower(StripRight(s)) == StripRight(Lower(s))
  {
    if s != [] {
      var l := Lower(s);
      LowerKeepsSpace(s[|s| - 1]);
      assert l[|s| - 1] == LowerChar(s[|s| - 1]);
      if IsSpace(s[|s| - 1]) {
        assert l[..|s| - 1] == Lower(s[..|s| - 1]);
        LowerStripRight(s[..|s| - 1]);
      }
    }
  }

  /** Lowering first or stripping first gives the same value. */
  lemma LowerStripCommute(s: string)
    ensures Normalize(s) == Strip(Lower(s))
  {
    LowerStripRight(StripLeft(s));
    LowerStripLeft(s);
  }

  /**
   * Values that differ only in ASCII letter case and surrounding white space
   * normalize alike, so requests with such values share a key.
   */
  lemma NormalizeIgnoresCaseAndPadding(pad1: string, x: string, pad2: string, pad3: string, y: string, pad4: string)
    requires AllSpace(pad1) && AllSpace(pad2) && AllSpace(pad3) && AllSpace(pad4)
    requires Lower(x) == Lower(y)
    ensures Normalize(pad1 + x + pad2) == Normalize(pad3 + y + pad4)
  {
    StripPadding(pad1, x, pad2);
    StripPadding(pad3, y, pad4);
    LowerStripCommute(x);
    LowerStripCommute(y);
  }

  lemma {:induction false} PartsAlike(a: Kwargs, b: Kwargs)
    requires |a| == |b|
    requires forall i :: 0 <= i < |a| ==> a[i].0 == b[i].0 && Normalize(a[i].1) == Normalize(b[i].1)
    ensures Parts(a) == Parts(b)
  {
    if a != [] {
      PartsAlike(a[1..], b[1..]);
    }
  }

  /** Arguments with the same names and alike normalized values give the same key. */
  lemma KeyNormalizedValues(a: Kwargs, b: Kwargs)
    requires |a| == |b|
    requires forall i :: 0 <= i < |a| ==> a[i].0 == b[i].0 && Normalize(a[i].1) == Normalize(b[i].1)
    ensures Key(a) == Key(b)
  {
    PartsAlike(a, b);
  }

  // Distinct values give distinct keys.

  lemma {:induction false} EscapeInjective(a: string, b: string)
    requires Escape(a) == Escape(b)
    ensures a == b
  {
    if a != [] && b != [] {
      var ea := Escape(a);
      assert ea[0] == '\\' <==> a[0] == '\\' || a[0] == '\'';
      assert Escape(b)[0] == '\\' <==> b[0] == '\\' || b[0] == '\'';
      var na := if a[0] == '\\' || a[0] == '\'' then 2 else 1;
      var nb := if b[0] == '\\' || b[0] == '\'' then 2 else 1;
      assert na == nb;
      assert ea[na..] == Escape(a[1..]);
      assert Escape(b)[nb..] == Escape(b[1..]);
      EscapeInjective(a[1..], b[1..]);
      assert a[0] == b[0];
      assert a == [a[0]] + a[1..] && b == [b[0]] + b[1..];
    }
  }

  /** The key of a single argument is its part alone. */
  lemma KeySingle(arg: (string, string))
    ensures Key([arg]) == Ok(Part(arg))
  {
    LexTotalOrder();
    SortSingleton(Part(arg), LexLe);
    assert Parts([arg]) == [Part(arg)];
  }

  /** Quoting is injective, so `name=<quoted value>` determines the value. */
  lemma QuotedInjective(name: string, x: string, y: string)
    requires name + "=" + Quote(x) == name + "=" + Quote(y)
    ensures x == y
  {
    var prefix := name + "=" + "u'";
    var ex, ey := Escape(x), Escape(y);
    assert name + "=" + Quote(x) == prefix + (ex + "'");
    assert name + "=" + Quote(y) == prefix + (ey + "'");
    assert ex + "'" == (name + "=" + Quote(x))[|prefix|..];
    assert ey + "'" == (name + "=" + Quote(y))[|prefix|..];
    assert ex == (ex + "'")[..|ex|];
    assert ey == (ey + "'")[..|ey|];
    EscapeInjective(x, y);
  }

  /** For one argument the key is exactly `name=<quoted value>`, so different normalized values differ. */
  lemma SingleArgumentKey(name: string, v: string, w: string)
    ensures Key([(name, v)]) == Ok(name + "=" + Quote(Normalize(v)))
    ensures Key([(name, v)]) == Key([(name, w)]) <==> Normalize(v) == Normalize(w)
  {
    KeySingle((name, v));
    KeySingle((name, w));
    if Key([(name, v)]) == Key([(name, w)]) {
      QuotedInjective(name, Normalize(v), Normalize(w));
    }
  }
}
