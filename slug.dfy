/** Heading-id derivation (`slugify`): lower-case the text, keep letters and
    digits, turn spaces, hyphens and underscores into hyphens, drop
    everything else, collapse hyphen runs and trim hyphens at both ends. */
module Slug {
  import opened Strings

  /** Go's `unicode.IsLetter`, `unicode.IsDigit`, `unicode.IsSpace` and
      `unicode.ToLower`, left uninterpreted: the model holds for any
      classification and case mapping. */
  datatype Unicode = Unicode(
    isLetter: char -> bool,
    isDigit: char -> bool,
    isSpace: char -> bool,
    toLower: char -> char)

  /** `strings.ToLower`: the case mapping applied to every character. */
  function Lower(u: Unicode, s: string): string {
    if s == [] then [] else [u.toLower(s[0])] + Lower(u, s[1..])
  }

  /** A character `slugify` keeps as it is. */
  predicate Kept(u: Unicode, c: char) {
    u.isLetter(c) || u.isDigit(c)
  }

  /** The mapping function handed to `strings.Map`; the empty result stands
      for Go's -1 (drop the character). */
  function MapRune(u: Unicode, c: char): string {
    if Kept(u, c) then [c]
    else if u.isSpace(c) || c == '-' || c == '_' then "-"
    else []
  }

  /** `strings.Map` with `MapRune`. */
  function MapRunes(u: Unicode, s: string): string {
    if s == [] then [] else MapRune(u, s[0]) + MapRunes(u, s[1..])
  }

  /** Every run of hyphens collapsed to one hyphen. This is the fixpoint that
      the `ReplaceAll(s, "--", "-")` loop reaches. */
  function Squeeze(s: string): string
    decreases |s|
  {
    if |s| <= 1 then s
    else if s[0] == '-' && s[1] == '-' then Squeeze(s[1..])
    else [s[0]] + Squeeze(s[1..])
  }

  function TrimHyphens(s: string): string {
    Trim(s, c => c == '-')
  }

  /** What `slugify` returns. */
  function SlugSpec(u: Unicode, s: string): string {
    TrimHyphens(Squeeze(MapRunes(u, Lower(u, s))))
  }

  predicate NoDoubleHyphen(s: string) {
    forall i :: 0 <= i < |s| - 1 ==> !(s[i] == '-' && s[i + 1] == '-')
  }

  /** `slugify` (process.go): the map step, then the rewrite loop that runs
      until no "--" is left, then the trim. */
  method Slugify(u: Unicode, s: string) returns (r: string)
    ensures r == SlugSpec(u, s)
  {
    var t := Lower(u, s);
    t := MapRunes(u, t);
    ghost var mapped := t;
    while Contains(t, "--")
      invariant Squeeze(t) == Squeeze(mapped)
      decreases |t|
    {
      ReplaceAllLength(t, "--", "-");
      SqueezeReplace(t);
      t := ReplaceAll(t, "--", "-");
    }
    NoContainsNoDouble(t);
    SqueezeFixed(t);
    r := TrimHyphens(t);
  }

  // ---- Facts about the pieces ----

  lemma {:induction false} LowerAt(u: Unicode, s: string)
    ensures |Lower(u, s)| == |s|
    ensures forall i :: 0 <= i < |s| ==> Lower(u, s)[i] == u.toLower(s[i])
  {
    if s != [] {
      LowerAt(u, s[1..]);
    }
  }

  /** `Squeeze` leaves the first character in place. */
  lemma {:induction false} SqueezeHead(s: string)
    ensures |Squeeze(s)| <= |s|
    ensures s != [] ==> Squeeze(s) != [] && Squeeze(s)[0] == s[0]
    decreases |s|
  {
    if |s| > 1 {
      SqueezeHead(s[1..]);
    }
  }

  /** Squeezing `c` in front of `t` only depends on `Squeeze(t)`. */
  lemma SqueezeCons(c: char, t: string)
    ensures Squeeze([c] + t) ==
      if c == '-' && t != [] && t[0] == '-' then Squeeze(t) else [c] + Squeeze(t)
  {
    assert ([c] + t)[1..] == t;
    if t == [] {
      assert [c] + t == [c];
    }
  }

  lemma SqueezeConsSame(c: char, t: string, t': string)
    requires Squeeze(t) == Squeeze(t')
    ensures Squeeze([c] + t) == Squeeze([c] + t')
  {
    SqueezeHead(t);
    SqueezeHead(t');
    SqueezeCons(c, t);
    SqueezeCons(c, t');
  }

  /** One `ReplaceAll(t, "--", "-")` pass does not change the squeezed form. */
  lemma {:induction false} SqueezeReplace(t: string)
    ensures Squeeze(ReplaceAll(t, "--", "-")) == Squeeze(t)
    decreases |t|
  {
    var d := "--";
    if |t| >= 2 {
      var rest := ReplaceAll(t[1..], d, "-");
      if t[..2] == d {
        var rest2 := ReplaceAll(t[2..], d, "-");
        SqueezeReplace(t[2..]);
        assert ReplaceAll(t, d, "-") == [t[0]] + rest2;
        SqueezeConsSame(t[0], rest2, t[2..]);
        assert t[1..] == [t[1]] + t[2..];
        SqueezeCons(t[1], t[2..]);
        SqueezeCons(t[0], t[1..]);
        SqueezeHead(t[2..]);
        SqueezeCons(t[0], t[2..]);
      } else {
        SqueezeReplace(t[1..]);
        assert ReplaceAll(t, d, "-") == [t[0]] + rest;
        SqueezeConsSame(t[0], rest, t[1..]);
        assert [t[0]] + t[1..] == t;
      }
    }
  }

  lemma {:induction false} NoContainsNoDouble(t: string)
    requires !Contains(t, "--")
    ensures NoDoubleHyphen(t)
  {
    forall i | 0 <= i < |t| - 1
      ensures !(t[i] == '-' && t[i + 1] == '-')
    {
      assert !OccursAt(t, "--", i);
      assert t[i..i + 2] == [t[i], t[i + 1]];
    }
  }

  /** A string without "--" is its own squeezed form. */
  lemma {:induction false} SqueezeFixed(t: string)
    requires NoDoubleHyphen(t)
    ensures Squeeze(t) == t
    decreases |t|
  {
    if |t| > 1 {
      SqueezeFixed(t[1..]);
      assert [t[0]] + t[1..] == t;
    }
  }

  /** `Squeeze` never leaves two hyphens side by side. */
  lemma {:induction false} SqueezeNoDouble(s: string)
    ensures NoDoubleHyphen(Squeeze(s))
    decreases |s|
  {
    if |s| > 1 {
      SqueezeNoDouble(s[1..]);
      SqueezeHead(s[1..]);
    }
  }

  /** `Squeeze` keeps only characters of its input and drops only hyphens. */
  lemma {:induction false} SqueezeChars(s: string)
    ensures forall c :: c in Squeeze(s) ==> c in s
    ensures forall c :: c in s && c != '-' ==> c in Squeeze(s)
    decreases |s|
  {
    if |s| > 1 {
      SqueezeChars(s[1..]);
      assert s == [s[0]] + s[1..];
    }
  }

  /** Each character `MapRunes` emits is a hyphen or a kept character of the
      input; and a kept non-hyphen character of the input is emitted. */
  lemma {:induction false} MapRunesChars(u: Unicode, t: string)
    ensures forall c :: c in MapRunes(u, t) ==> c == '-' || (Kept(u, c) && c in t)
    ensures forall c :: c in t && Kept(u, c) ==> c in MapRunes(u, t)
  {
    if t != [] {
      MapRunesChars(u, t[1..]);
      assert t == [t[0]] + t[1..];
    }
  }

  lemma NoDoubleSlice(s: string, a: int, b: int)
    requires NoDoubleHyphen(s) && 0 <= a <= b <= |s|
    ensures NoDoubleHyphen(s[a..b])
  {
    forall i | 0 <= i < b - a - 1
      ensures !(s[a..b][i] == '-' && s[a..b][i + 1] == '-')
    {
      assert s[a..b][i] == s[a + i] && s[a..b][i + 1] == s[a + i + 1];
    }
  }

  // ---- The properties of a derived id ----

  /** A derived id holds no "--", neither starts nor ends with '-', and every
      other character is a kept (letter or digit) character that is the
      lower-case form of some character of the heading text. */
  lemma SlugShape(u: Unicode, s: string)
    ensures var r := SlugSpec(u, s);
      NoDoubleHyphen(r) &&
      (r == [] || (r[0] != '-' && r[|r| - 1] != '-')) &&
      forall c :: c in r ==>
        (c == '-' || (Kept(u, c) && exists i :: 0 <= i < |s| && c == u.toLower(s[i])))
  {
    var t := Lower(u, s);
    var m := MapRunes(u, t);
    var q := Squeeze(m);
    var r := TrimHyphens(q);
    SqueezeNoDouble(m);
    TrimShape(q, c => c == '-');
    var k := |q| - |TrimLeft(q, c => c == '-')|;
    NoDoubleSlice(q, k, k + |r|);
    SqueezeChars(m);
    MapRunesChars(u, t);
    LowerAt(u, s);
    forall c | c in r && c != '-'
      ensures Kept(u, c) && exists i :: 0 <= i < |s| && c == u.toLower(s[i])
    {
      assert c in q;
      var i :| 0 <= i < |t| && t[i] == c;
      assert c == u.toLower(s[i]);
    }
  }

  /** The derived id is empty exactly when the lower-cased text holds no kept
      character other than '-': such a heading gets no id. */
  lemma SlugEmptyIff(u: Unicode, s: string)
    ensures SlugSpec(u, s) == [] <==>
      forall i :: 0 <= i < |s| ==> !(Kept(u, u.toLower(s[i])) && u.toLower(s[i]) != '-')
  {
    var t := Lower(u, s);
    var m := MapRunes(u, t);
    var q := Squeeze(m);
    LowerAt(u, s);
    MapRunesChars(u, t);
    SqueezeChars(m);
    TrimShape(q, c => c == '-');
    if SlugSpec(u, s) == [] {
      forall i | 0 <= i < |s|
        ensures !(Kept(u, u.toLower(s[i])) && u.toLower(s[i]) != '-')
      {
        assert u.toLower(s[i]) in t;
      }
    } else {
      var c := SlugSpec(u, s)[0];
      var k := |q| - |TrimLeft(q, c => c == '-')|;
      assert c == q[k];
      assert c in m;
      var i :| 0 <= i < |t| && t[i] == c;
      assert u.toLower(s[i]) == c;
    }
  }
}
