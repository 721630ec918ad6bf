/** The fallback display label for a topic slug: split the slug on '-',
    upper-case the first character of every segment, join the segments
    with an en-dash. Upper-casing covers ASCII letters only. */
module SlugText {
  import opened Seqs

  const Hyphen: char := '-'
  const EnDash: char := '\U{2013}'

  function UpperAscii(c: char): (u: char)
    ensures u == Hyphen <==> c == Hyphen
    ensures u == EnDash <==> c == EnDash
  {
    if 'a' <= c <= 'z' then (c as int - 32) as char else c
  }

  /** `w.charAt(0).toUpperCase() + w.slice(1)`. */
  function Capitalize(w: string): (r: string)
    ensures |r| == |w|
  {
    if w == [] then [] else [UpperAscii(w[0])] + w[1..]
  }

  /** `s.split(sep)`: always at least one segment, never containing `sep`. */
  function Split(s: string, sep: char): (parts: seq<string>)
    ensures |parts| >= 1
    ensures forall i :: 0 <= i < |parts| ==> sep !in parts[i]
  {
    if s == [] then [[]]
    else
      var rest := Split(s[1..], sep);
      if s[0] == sep then [[]] + rest else [[s[0]] + rest[0]] + rest[1..]
  }

  /** `parts.join([sep])`. */
  function Join(parts: seq<string>, sep: char): string {
    if parts == [] then []
    else if |parts| == 1 then parts[0]
    else parts[0] + [sep] + Join(parts[1..], sep)
  }

  /** The label the topic-name lookup falls back to. */
  function FallbackName(slug: string): string {
    Join(Map(Split(slug, Hyphen), Capitalize), EnDash)
  }

  /** A reference definition of the same label, one character at a time:
      hyphens become en-dashes and the first character of each segment is
      upper-cased (`atStart` says a segment begins here). */
  function TitleCase(s: string, atStart: bool): (r: string)
    ensures |r| == |s|
  {
    if s == [] then []
    else if s[0] == Hyphen then [EnDash] + TitleCase(s[1..], true)
    else [if atStart then UpperAscii(s[0]) else s[0]] + TitleCase(s[1..], false)
  }

  /** Joining the segments of a split gives back the original text. */
  lemma {:induction false} JoinSplit(s: string, sep: char)
    ensures Join(Split(s, sep), sep) == s
  {
    if s != [] {
      var rest := Split(s[1..], sep);
      JoinSplit(s[1..], sep);
      if s[0] == sep {
        assert ([[]] + rest)[1..] == rest;
      } else {
        assert ([[s[0]] + rest[0]] + rest[1..])[1..] == rest[1..];
      }
    }
  }

  /** A slug with n hyphens has n + 1 segments. */
  lemma {:induction false} SplitCount(s: string, sep: char)
    ensures |Split(s, sep)| == multiset(s)[sep] + 1
  {
    if s != [] {
      SplitCount(s[1..], sep);
      assert s == [s[0]] + s[1..];
    }
  }

  lemma JoinConsHead(c: char, a: string, q: seq<string>, sep: char)
    ensures Join([[c] + a] + q, sep) == [c] + Join([a] + q, sep)
  {
    assert ([[c] + a] + q)[1..] == q;
    assert ([a] + q)[1..] == q;
  }

  lemma MapTail(p: seq<string>)
    requires p != []
    ensures Map(p, Capitalize) == [Capitalize(p[0])] + Map(p[1..], Capitalize)
  {
  }

  /** `Join` of capitalised segments, leaving the first segment as it is. */
  function JoinTail(p: seq<string>): string
    requires p != []
  {
    Join([p[0]] + Map(p[1..], Capitalize), EnDash)
  }

  lemma CapitalizeAppend(a: string, b: string)
    requires a != []
    ensures Capitalize(a + b) == Capitalize(a) + b
  {
    assert (a + b)[1..] == a[1..] + b;
  }

  lemma JoinTwoOrMore(a: string, q: seq<string>, sep: char)
    requires q != []
    ensures Join([a] + q, sep) == a + [sep] + Join(q, sep)
  {
    assert ([a] + q)[1..] == q;
  }

  lemma JoinCapitalizedEmptyHead(q: seq<string>)
    requires q != []
    ensures Join([Capitalize([])] + q, EnDash) == Capitalize(Join([[]] + q, EnDash))
  {
    JoinTwoOrMore([], q, EnDash);
    assert [] + [EnDash] + Join(q, EnDash) == [EnDash] + Join(q, EnDash);
  }

  lemma JoinCapitalizedHead(a: string, q: seq<string>)
    requires a != [] && q != []
    ensures Join([Capitalize(a)] + q, EnDash) == Capitalize(Join([a] + q, EnDash))
  {
    var t := [EnDash] + Join(q, EnDash);
    JoinTwoOrMore(Capitalize(a), q, EnDash);
    JoinTwoOrMore(a, q, EnDash);
    assert a + [EnDash] + Join(q, EnDash) == a + t;
    assert Capitalize(a) + [EnDash] + Join(q, EnDash) == Capitalize(a) + t;
    CapitalizeAppend(a, t);
  }

  lemma JoinCapitalized(p: seq<string>)
    requires p != []
    ensures Join(Map(p, Capitalize), EnDash) == Capitalize(JoinTail(p))
  {
    MapTail(p);
    var q := Map(p[1..], Capitalize);
    if q != [] {
      if p[0] == [] {
        JoinCapitalizedEmptyHead(q);
      } else {
        JoinCapitalizedHead(p[0], q);
      }
    }
  }

  lemma TitleCaseStart(s: string)
    ensures TitleCase(s, true) == Capitalize(TitleCase(s, false))
  {
  }

  lemma {:induction false} JoinTailSplit(s: string)
    ensures JoinTail(Split(s, Hyphen)) == TitleCase(s, false)
  {
    if s != [] {
      var rest := Split(s[1..], Hyphen);
      JoinTailSplit(s[1..]);
      if s[0] == Hyphen {
        var p := [[]] + rest;
        assert p[1..] == rest;
        assert |[[]] + Map(rest, Capitalize)| > 1;
        assert ([[]] + Map(rest, Capitalize))[1..] == Map(rest, Capitalize);
        JoinCapitalized(rest);
        TitleCaseStart(s[1..]);
      } else {
        assert ([[s[0]] + rest[0]] + rest[1..])[1..] == rest[1..];
        JoinConsHead(s[0], rest[0], Map(rest[1..], Capitalize), EnDash);
      }
    }
  }

  /** The split-capitalise-join pipeline agrees with the per-character
      reference definition. */
  lemma FallbackIsTitleCase(s: string)
    ensures FallbackName(s) == TitleCase(s, true)
  {
    JoinCapitalized(Split(s, Hyphen));
    JoinTailSplit(s);
    TitleCaseStart(s);
  }

  /** Character `i` of the label: an en-dash for a hyphen, the upper-cased
      character at the start of a segment, the character itself elsewhere. */
  lemma {:induction false} TitleCaseAt(s: string, atStart: bool, i: nat)
    requires i < |s|
    ensures TitleCase(s, atStart)[i] ==
      if s[i] == Hyphen then EnDash
      else if (i == 0 && atStart) || (i > 0 && s[i - 1] == Hyphen) then UpperAscii(s[i])
      else s[i]
  {
    if i > 0 {
      TitleCaseAt(s[1..], s[0] == Hyphen, i - 1);
    }
  }

  /** Hyphens turn into en-dashes one for one; no hyphen survives. */
  lemma {:induction false} TitleCaseCounts(s: string, atStart: bool)
    ensures Hyphen !in TitleCase(s, atStart)
    ensures multiset(TitleCase(s, atStart))[EnDash] == multiset(s)[Hyphen] + multiset(s)[EnDash]
  {
    if s != [] {
      TitleCaseCounts(s[1..], s[0] == Hyphen);
      assert s == [s[0]] + s[1..];
    }
  }

  /** A segment without hyphens is capitalised exactly when it starts one. */
  lemma {:induction false} TitleCaseSegment(w: string, atStart: bool)
    requires Hyphen !in w
    ensures TitleCase(w, atStart) == if atStart then Capitalize(w) else w
  {
    if w != [] {
      TitleCaseSegment(w[1..], false);
    }
  }

  /** A segment followed by a hyphen and more text. */
  lemma {:induction false} TitleCaseSegmentThen(w: string, rest: string, atStart: bool)
    requires Hyphen !in w
    ensures TitleCase(w + [Hyphen] + rest, atStart) ==
      (if atStart then Capitalize(w) else w) + [EnDash] + TitleCase(rest, true)
  {
    if w == [] {
      assert w + [Hyphen] + rest == [Hyphen] + rest;
    } else {
      assert (w + [Hyphen] + rest)[1..] == w[1..] + [Hyphen] + rest;
      TitleCaseSegmentThen(w[1..], rest, false);
    }
  }
}
