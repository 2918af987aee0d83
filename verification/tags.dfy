/** Struct-tag option parsing.

    All three Go files carry the same helper (`getTagLookup` /
    `GetTagLookup`): split the tag value on commas, trim spaces and tabs
    from both ends of every segment, and mark each trimmed segment as an
    active option. The Go map holds `true` for every key it has and yields
    `false` for every other key, so the lookup is the set of its keys.
 */
module Tags {

  /** The cut set handed to strings.Trim: a space and a tab. */
  predicate IsBlank(c: char) {
    c == ' ' || c == '\t'
  }

  /** A string with no blank at either end. */
  predicate Trimmed(t: string) {
    t == [] || (!IsBlank(t[0]) && !IsBlank(t[|t| - 1]))
  }

  /** Number of occurrences of `c` in `s`. */
  function Count(s: string, c: char): nat {
    if s == [] then 0 else (if s[0] == c then 1 else 0) + Count(s[1..], c)
  }

  /** Inverse of Split: the parts glued back together with `sep` between them. */
  function Join(parts: seq<string>, sep: char): string
    requires |parts| >= 1
  {
    if |parts| == 1 then parts[0] else parts[0] + [sep] + Join(parts[1..], sep)
  }

  /** strings.Split with a one-character separator: the maximal `sep`-free
      segments of `s`, including the empty ones between adjacent separators
      and at either end. An empty string yields one empty segment. */
  function Split(s: string, sep: char): (parts: seq<string>)
    ensures |parts| == Count(s, sep) + 1
    ensures forall i :: 0 <= i < |parts| ==> sep !in parts[i]
    ensures Join(parts, sep) == s
    decreases |s|
  {
    if s == [] then [[]]
    else if s[0] == sep then
      var rest := Split(s[1..], sep);
      assert s == [sep] + s[1..];
      [[]] + rest
    else
      var rest := Split(s[1..], sep);
      var parts := [[s[0]] + rest[0]] + rest[1..];
      assert parts[1..] == rest[1..];
      assert s == [s[0]] + s[1..];
      parts
  }

  /** Number of blanks `strings.Trim` removes from the front of `s`. */
  function Leading(s: string): (n: nat)
    ensures n <= |s|
    ensures forall i :: 0 <= i < n ==> IsBlank(s[i])
    ensures n == |s| || !IsBlank(s[n])
  {
    if s != [] && IsBlank(s[0]) then 1 + Leading(s[1..]) else 0
  }

  /** Number of blanks `strings.Trim` removes from the back of `s`. */
  function Trailing(s: string): (n: nat)
    ensures n <= |s|
    ensures forall i :: |s| - n <= i < |s| ==> IsBlank(s[i])
    ensures n == |s| || !IsBlank(s[|s| - n - 1])
  {
    if s != [] && IsBlank(s[|s| - 1]) then 1 + Trailing(s[..|s| - 1]) else 0
  }

  /** strings.Trim(s, " \t"): the slice of `s` left after removing every
      leading and trailing space and tab. */
  function Trim(s: string): (r: string)
    ensures Trimmed(r)
    ensures var lo := Leading(s);
            && lo + |r| <= |s| && r == s[lo..lo + |r|]
            && (forall i :: 0 <= i < lo ==> IsBlank(s[i]))
            && (forall i :: lo + |r| <= i < |s| ==> IsBlank(s[i]))
  {
    var lo := Leading(s);
    // a string of blanks only: both counts cover all of it
    var hi := if lo == |s| then lo else |s| - Trailing(s);
    s[lo..hi]
  }

  /** The trimmed segments, as a set. */
  function Tokens(parts: seq<string>): set<string> {
    set i | 0 <= i < |parts| :: Trim(parts[i])
  }

  /** The options a tag value switches on (the key set of the Go lookup map). */
  function TagLookup(tag: string): (tokens: set<string>)
    ensures tokens != {}
  {
    var parts := Split(tag, ',');
    assert Trim(parts[0]) in Tokens(parts);
    Tokens(parts)
  }

  /** Options hold no comma and have no blank ends. */
  lemma OptionsAreTrimmed(tag: string)
    ensures forall t :: t in TagLookup(tag) ==> ',' !in t && Trimmed(t)
  {
    TokensAreSegments(Split(tag, ','));
  }

  /** A comma-free tag value is a single option: the value trimmed. */
  lemma CommaFreeTag(tag: string)
    requires ',' !in tag
    ensures TagLookup(tag) == {Trim(tag)}
  {
    SplitFreePrefix(tag, [], ',');
    assert tag + [] == tag;
    assert Split(tag, ',') == [tag];
  }

  /** Looking an option up in the Go map: true exactly when a segment trims to it. */
  predicate Has(tag: string, option: string) {
    option in TagLookup(tag)
  }

  /** The `-` option removes a field from the mapping. */
  predicate Excluded(tag: string) {
    Has(tag, "-")
  }

  /** The `text` option maps a string field to full-text `text` rather than `keyword`. */
  predicate RendersText(tag: string) {
    Has(tag, "text")
  }

  lemma TokensAreSegments(parts: seq<string>)
    requires forall i :: 0 <= i < |parts| ==> ',' !in parts[i]
    ensures forall t :: t in Tokens(parts) ==> ',' !in t && Trimmed(t)
  {
    forall t | t in Tokens(parts)
      ensures ',' !in t && Trimmed(t)
    {
      var i :| 0 <= i < |parts| && Trim(parts[i]) == t;
      var lo := Leading(parts[i]);
      assert t == parts[i][lo..lo + |t|];
    }
  }

  lemma TokensAppend(p: seq<string>, q: seq<string>)
    ensures Tokens(p + q) == Tokens(p) + Tokens(q)
  {
    forall t | t in Tokens(p + q)
      ensures t in Tokens(p) + Tokens(q)
    {
      var i :| 0 <= i < |p + q| && Trim((p + q)[i]) == t;
      if i < |p| {
        assert (p + q)[i] == p[i];
      } else {
        assert (p + q)[i] == q[i - |p|];
      }
    }
    forall t | t in Tokens(p) + Tokens(q)
      ensures t in Tokens(p + q)
    {
      if t in Tokens(p) {
        var i :| 0 <= i < |p| && Trim(p[i]) == t;
        assert (p + q)[i] == p[i];
      } else {
        var i :| 0 <= i < |q| && Trim(q[i]) == t;
        assert (p + q)[|p| + i] == q[i];
      }
    }
  }

  /** Joining two non-empty part lists joins their joins with one separator. */
  lemma {:induction false} JoinAppend(p: seq<string>, q: seq<string>, sep: char)
    requires |p| >= 1 && |q| >= 1
    ensures Join(p + q, sep) == Join(p, sep) + [sep] + Join(q, sep)
    decreases |p|
  {
    if |p| == 1 {
      assert (p + q)[1..] == q;
    } else {
      assert (p + q)[1..] == p[1..] + q;
      JoinAppend(p[1..], q, sep);
    }
  }

  /** Splitting a separator-free prefix off. */
  lemma {:induction false} SplitFreePrefix(a: string, t: string, sep: char)
    requires sep !in a
    ensures Split(a + t, sep) == [a + Split(t, sep)[0]] + Split(t, sep)[1..]
    decreases |a|
  {
    if a == [] {
      assert a + t == t;
      var p := Split(t, sep);
      assert [] + p[0] == p[0];
      assert p == [p[0]] + p[1..];
    } else {
      assert (a + t)[0] == a[0];
      assert (a + t)[1..] == a[1..] + t;
      assert sep !in a[1..];
      SplitFreePrefix(a[1..], t, sep);
      assert [a[0]] + (a[1..] + Split(t, sep)[0]) == a + Split(t, sep)[0];
    }
  }

  /** Split is the only way to cut a string into separator-free parts whose
      join is that string: it inverts Join. */
  lemma {:induction false} SplitJoin(parts: seq<string>, sep: char)
    requires |parts| >= 1
    requires forall i :: 0 <= i < |parts| ==> sep !in parts[i]
    ensures Split(Join(parts, sep), sep) == parts
    decreases |parts|
  {
    if |parts| == 1 {
      SplitFreePrefix(parts[0], [], sep);
      assert parts[0] + [] == parts[0];
    } else {
      var rest := parts[1..];
      SplitJoin(rest, sep);
      var t := [sep] + Join(rest, sep);
      assert Join(parts, sep) == parts[0] + t;
      SplitFreePrefix(parts[0], t, sep);
      assert t[0] == sep && t[1..] == Join(rest, sep);
      assert Split(t, sep) == [[]] + rest;
      assert parts[0] + [] == parts[0];
      assert parts == [parts[0]] + rest;
    }
  }

  /** Splitting at a separator concatenates the splits of both sides. */
  lemma SplitAtSeparator(a: string, b: string, sep: char)
    ensures Split(a + [sep] + b, sep) == Split(a, sep) + Split(b, sep)
  {
    var p := Split(a, sep) + Split(b, sep);
    JoinAppend(Split(a, sep), Split(b, sep), sep);
    forall i | 0 <= i < |p|
      ensures sep !in p[i]
    {
      if i >= |Split(a, sep)| {
        assert p[i] == Split(b, sep)[i - |Split(a, sep)|];
      }
    }
    SplitJoin(p, sep);
  }

  /** The options of two tag values joined by a comma are the union of
      their options: together with the comma-free case of TagLookup's
      contract this determines every lookup. */
  lemma TagLookupAtComma(a: string, b: string)
    ensures TagLookup(a + [','] + b) == TagLookup(a) + TagLookup(b)
  {
    SplitAtSeparator(a, b, ',');
    TokensAppend(Split(a, ','), Split(b, ','));
  }

  /** A repeated option is one option. */
  lemma RepeatedOptionCollapses(a: string)
    ensures TagLookup(a + [','] + a) == TagLookup(a)
  {
    TagLookupAtComma(a, a);
  }

  /** Trimming leaves a string without blank ends unchanged, so trimming
      twice is trimming once. */
  lemma TrimOfTrimmed(t: string)
    requires Trimmed(t)
    ensures Trim(t) == t
  {
  }

  lemma TrimIdempotent(s: string)
    ensures Trim(Trim(s)) == Trim(s)
  {
    TrimOfTrimmed(Trim(s));
  }

  /** A comma-free tag value without blank ends is exactly one option, and
      option names are matched exactly: `Text` is not `text`. */
  lemma SingleOption(t: string)
    requires ',' !in t && Trimmed(t)
    ensures TagLookup(t) == {t}
    ensures forall option :: Has(t, option) <==> option == t
  {
    CommaFreeTag(t);
    TrimOfTrimmed(t);
  }

  /** A field without the key has the empty tag value: its only option is
      the empty one, so it is neither skipped nor text. */
  lemma EmptyTagHasNoOption()
    ensures TagLookup("") == {""}
    ensures !Excluded("") && !RendersText("")
  {
    SingleOption("");
  }

  /** The padded pair in the reflection demo's tag yields its two words. */
  lemma PaddedPair()
    ensures TagLookup("hello,     world") == {"hello", "world"}
  {
    assert "hello,     world" == "hello" + [','] + ("     " + "world");
    assert forall i :: 0 <= i < |"     "| ==> IsBlank("     "[i]);
    PairOfOptions("hello", "     ", "world");
  }

  /** Two options separated by a comma and padding. */
  lemma PairOfOptions(a: string, pad: string, w: string)
    requires ',' !in a && Trimmed(a) && ',' !in w && Trimmed(w)
    requires forall i :: 0 <= i < |pad| ==> IsBlank(pad[i])
    requires ',' !in pad
    ensures TagLookup(a + [','] + (pad + w)) == {a, w}
  {
    TagLookupAtComma(a, pad + w);
    CommaFreeTag(a);
    TrimOfTrimmed(a);
    PaddedOption(pad, w);
  }

  /** A comma-free word after blank padding is that one option. */
  lemma PaddedOption(pad: string, w: string)
    requires ',' !in w && Trimmed(w) && ',' !in pad
    requires forall i :: 0 <= i < |pad| ==> IsBlank(pad[i])
    ensures TagLookup(pad + w) == {w}
  {
    TrimPadded(pad, w);
    assert ',' !in pad + w;
    CommaFreeTag(pad + w);
  }

  /** Trim removes exactly the blank padding in front of a word. */
  lemma TrimPadded(pad: string, w: string)
    requires forall i :: 0 <= i < |pad| ==> IsBlank(pad[i])
    requires Trimmed(w)
    ensures Trim(pad + w) == w
  {
    var s := pad + w;
    LeadingPadding(pad, w);
    var r := Trim(s);
    assert r == s[|pad|..|pad| + |r|];
    assert s[|pad|..] == w;
  }


  lemma {:induction false} LeadingPadding(pad: string, w: string)
    requires forall i :: 0 <= i < |pad| ==> IsBlank(pad[i])
    requires w == [] || !IsBlank(w[0])
    ensures Leading(pad + w) == |pad|
    decreases |pad|
  {
    if pad != [] {
      assert (pad + w)[1..] == pad[1..] + w;
      LeadingPadding(pad[1..], w);
    } else {
      assert pad + w == w;
    }
  }

  /** Tabs count as padding. */
  lemma TabPadding()
    ensures Excluded("\t-\t")
  {
    var t := "\t-\t";
    assert ',' !in t;
    assert Leading(t) == 1 by {
      assert t == "\t" + "-\t";
      LeadingPadding("\t", "-\t");
    }
    assert Trailing(t[1..]) == 1 by {
      assert t[1..] == "-\t";
      assert "-\t"[..1] == "-";
    }
    assert Trim(t) == t[1..2] == "-";
  }
}
