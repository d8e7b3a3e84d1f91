/** The two filename patterns of fishproviz/path_validation.py and the subset of
    Python's `re` they use: literal characters, `.`, `\d*` and `.*`, matched with
    `re.match`, which anchors at the start of the name but not at its end. */
module Regex {
  import opened Strings

  datatype CharClass = AnyButNewline | Digit

  /** One element of a pattern: a literal character, one character of a class
      (`.`), or any number of characters of a class (`.*`, `\d*`). */
  datatype Atom = Lit(ch: char) | One(cls: CharClass) | Star(cls: CharClass)

  predicate InClass(k: CharClass, ch: char)
  {
    match k
    case AnyButNewline => ch != '\n'
    case Digit => IsDigit(ch)
  }

  /** `re.match(p, s) is not None`: some way of matching `p` consumes a prefix
      of `s` (a backtracking matcher finds one exactly when one exists). */
  predicate MatchesPrefix(p: seq<Atom>, s: string)
    decreases |p|, |s|
  {
    if p == [] then true
    else match p[0]
      case Lit(c) => s != [] && s[0] == c && MatchesPrefix(p[1..], s[1..])
      case One(k) => s != [] && InClass(k, s[0]) && MatchesPrefix(p[1..], s[1..])
      case Star(k) => MatchesPrefix(p[1..], s) || (s != [] && InClass(k, s[0]) && MatchesPrefix(p, s[1..]))
  }

  /** Text spliced into a pattern by `str.format`: every character stands for
      itself except `.`, which matches any character. */
  function Literal(t: string): (r: seq<Atom>)
    ensures |r| == |t|
    ensures forall k :: 0 <= k < |t| && t[k] != '.' ==> r[k] == Lit(t[k])
  {
    if t == [] then [] else [if t[0] == '.' then One(AnyButNewline) else Lit(t[0])] + Literal(t[1..])
  }

  /** `.*{c}_{d[:15]}.{c}_` */
  function Head(c: string, d: string): seq<Atom>
  {
    [Star(AnyButNewline)] + Literal(c) + [Lit('_')] + Literal(Slice(d, 0, 15))
      + [One(AnyButNewline)] + Literal(c) + [Lit('_')]
  }

  /** `_\d*-\d*-\d*T\d*_\d*_\d*_\d*.csv` */
  const Tail: seq<Atom> :=
    [Lit('_'), Star(Digit), Lit('-'), Star(Digit), Lit('-'), Star(Digit), Lit('T'),
     Star(Digit), Lit('_'), Star(Digit), Lit('_'), Star(Digit), Lit('_'), Star(Digit),
     One(AnyButNewline), Lit('c'), Lit('s'), Lit('v')]

  /** The pattern of the segment with zero-padded index `key` of camera `c` on day folder `d`. */
  function IndexPattern(c: string, d: string, key: string): seq<Atom>
  {
    Head(c, d) + Literal(key) + Tail
  }

  /** The pattern every well-named segment of camera `c` on day folder `d` matches. */
  function GeneralPattern(c: string, d: string): seq<Atom>
  {
    Head(c, d) + [Star(Digit)] + Tail
  }

  /** Whatever a run of literal digits matches, `\d*` matches too. */
  lemma {:induction false} DigitsGeneralize(key: string, rest: seq<Atom>, s: string)
    requires AllDigits(key) && MatchesPrefix(Literal(key) + rest, s)
    ensures MatchesPrefix([Star(Digit)] + rest, s)
  {
    var p := [Star(Digit)] + rest;
    assert p[0] == Star(Digit) && p[1..] == rest;
    if key == [] {
      assert Literal(key) + rest == rest;
    } else {
      var q := Literal(key) + rest;
      assert q[0] == Lit(key[0]) && q[1..] == Literal(key[1..]) + rest;
      DigitsGeneralize(key[1..], rest, s[1..]);
    }
  }

  /** Replacing a digit literal by `\d*` anywhere in a pattern only admits more names. */
  lemma {:induction false} Generalize(h: seq<Atom>, key: string, rest: seq<Atom>, s: string)
    requires AllDigits(key) && MatchesPrefix(h + Literal(key) + rest, s)
    ensures MatchesPrefix(h + [Star(Digit)] + rest, s)
    decreases |h|, |s|
  {
    var p := h + Literal(key) + rest;
    var g := h + [Star(Digit)] + rest;
    if h == [] {
      assert p == Literal(key) + rest && g == [Star(Digit)] + rest;
      DigitsGeneralize(key, rest, s);
    } else {
      assert p[0] == h[0] && p[1..] == h[1..] + Literal(key) + rest;
      assert g[0] == h[0] && g[1..] == h[1..] + [Star(Digit)] + rest;
      match h[0]
      case Lit(_) => Generalize(h[1..], key, rest, s[1..]);
      case One(_) => Generalize(h[1..], key, rest, s[1..]);
      case Star(_) =>
        if MatchesPrefix(p[1..], s) {
          Generalize(h[1..], key, rest, s);
        } else {
          Generalize(h, key, rest, s[1..]);
        }
    }
  }

  /** A name that matches the pattern of a non-negative index matches the
      general pattern, because the six-digit key is one of the strings `\d*` matches. */
  lemma IndexImpliesGeneral(c: string, d: string, i: int, f: string)
    requires i >= 0 && MatchesPrefix(IndexPattern(c, d, FormatPadded(i, 6)), f)
    ensures MatchesPrefix(GeneralPattern(c, d), f)
  {
    Generalize(Head(c, d), FormatPadded(i, 6), Tail, f);
  }

  /** The match is not anchored at the end: anything may follow a matching name. */
  lemma {:induction false} MatchIgnoresSuffix(p: seq<Atom>, s: string, extra: string)
    requires MatchesPrefix(p, s)
    ensures MatchesPrefix(p, s + extra)
    decreases |p|, |s|
  {
    if p != [] {
      match p[0]
      case Lit(_) =>
        assert (s + extra)[1..] == s[1..] + extra;
        MatchIgnoresSuffix(p[1..], s[1..], extra);
      case One(_) =>
        assert (s + extra)[1..] == s[1..] + extra;
        MatchIgnoresSuffix(p[1..], s[1..], extra);
      case Star(_) =>
        if MatchesPrefix(p[1..], s) {
          MatchIgnoresSuffix(p[1..], s, extra);
        } else {
          assert (s + extra)[1..] == s[1..] + extra;
          MatchIgnoresSuffix(p, s[1..], extra);
        }
    }
  }
}
