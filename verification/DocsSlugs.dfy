/** Slugs of apps/api/src/docs/docs.service.ts: slugify, DOCS_SLUG_REGEX and sanitizeSlug. */
module DocsSlugs {
  import opened Text
  import opened Wrappers

  predicate SlugChar(c: char) { 'a' <= c <= 'z' || '0' <= c <= '9' }

  predicate Word(w: string) {
    w != "" && forall i | 0 <= i < |w| :: SlugChar(w[i])
  }

  function Join(words: seq<string>): string {
    if |words| == 0 then "" else if |words| == 1 then words[0] else words[0] + "-" + Join(words[1..])
  }

  ghost predicate AllWords(words: seq<string>) {
    forall i | 0 <= i < |words| :: Word(words[i])
  }

  /** The language of ^[a-z0-9]+(?:-[a-z0-9]+)*$ */
  ghost predicate IsSlug(s: string) {
    exists words :: |words| > 0 && AllWords(words) && s == Join(words)
  }

  // ---------- slugify ----------

  /** The characters of the first maximal run that the pattern [^a-z0-9]+ matches at the front, dropped. */
  function SkipRun(s: string): (t: string)
    ensures |t| <= |s| && (t == "" || SlugChar(t[0]))
    ensures s != "" && !SlugChar(s[0]) ==> |t| < |s|
  {
    if s != "" && !SlugChar(s[0]) then SkipRun(s[1..]) else s
  }

  /** The first maximal run of slug characters at the front. */
  function TakeRun(s: string): (w: string)
    ensures w <= s && (forall i | 0 <= i < |w| :: SlugChar(w[i]))
    ensures |w| < |s| ==> !SlugChar(s[|w|])
    ensures s != "" && SlugChar(s[0]) ==> w != ""
  {
    if s != "" && SlugChar(s[0]) then [s[0]] + TakeRun(s[1..]) else ""
  }

  /** replace(/[^a-z0-9]+/g, '-'): what lies between the matches is copied, every match becomes a hyphen. */
  function Collapse(s: string): string
    decreases |s|
  {
    if s == "" then ""
    else if SlugChar(s[0]) then TakeRun(s) + Collapse(s[|TakeRun(s)|..])
    else "-" + Collapse(SkipRun(s))
  }

  function StripStart(s: string): string {
    if s != "" && s[0] == '-' then StripStart(s[1..]) else s
  }

  function StripEnd(s: string): string {
    if s != "" && s[|s| - 1] == '-' then StripEnd(s[..|s| - 1]) else s
  }

  /** lower is String.prototype.toLowerCase. */
  function Slugify(value: string, lower: string -> string): string {
    StripEnd(StripStart(Collapse(lower(value))))
  }

  /** Lower-casing leaves slugs and pieces of slugs alone. */
  ghost predicate KeepsSlugText(lower: string -> string) {
    forall s | (forall i | 0 <= i < |s| :: SlugChar(s[i]) || s[i] == '-') :: lower(s) == s
  }

  // ---------- the simple form: the words of a text, joined ----------

  function Words(s: string): (words: seq<string>)
    ensures forall i | 0 <= i < |words| :: Word(words[i])
  {
    if s == "" then []
    else if SlugChar(s[0]) then [TakeRun(s)] + Words(s[|TakeRun(s)|..])
    else Words(s[1..])
  }

  lemma {:induction false} WordsSkip(s: string)
    ensures Words(SkipRun(s)) == Words(s)
  {
    if s != "" && !SlugChar(s[0]) {
      WordsSkip(s[1..]);
    }
  }

  function Trail(s: string): string {
    if s != "" && !SlugChar(s[|s| - 1]) then "-" else ""
  }

  lemma Regroup(w: string, joined: string, trail: string)
    ensures w + ("-" + (joined + trail)) == (w + "-" + joined) + trail
  {
  }

  lemma AppendNothing(a: string)
    ensures a + "" == a && "" + a == a
  {
  }

  lemma TrailAfter(s: string, k: nat)
    requires k < |s|
    ensures Trail(s[k..]) == Trail(s)
  {
    assert s[k..][|s| - k - 1] == s[|s| - 1];
  }

  /** What SkipRun drops is a front part without slug characters. */
  lemma {:induction false} SkipRunDrops(s: string)
    ensures SkipRun(s) == s[|s| - |SkipRun(s)|..]
    ensures forall i | 0 <= i < |s| - |SkipRun(s)| :: !SlugChar(s[i])
  {
    if s != "" && !SlugChar(s[0]) {
      SkipRunDrops(s[1..]);
      assert forall i | 0 < i < |s| :: s[i] == s[1..][i - 1];
    }
  }

  lemma TrailOfRun(s: string)
    requires s != "" && SkipRun(s) == ""
    ensures Trail(s) == "-"
  {
    SkipRunDrops(s);
    assert !SlugChar(s[|s| - 1]);
  }

  lemma JoinCons(w: string, words: seq<string>)
    ensures Join([w] + words) == if words == [] then w else w + "-" + Join(words)
  {
    assert ([w] + words)[1..] == words;
  }

  /** A text that starts with a slug character collapses to its words, joined, and a trailing hyphen if it
      does not end with one. */
  lemma {:induction false} CollapseWords(s: string)
    requires s == "" || SlugChar(s[0])
    ensures Collapse(s) == Join(Words(s)) + Trail(s)
    decreases |s|
  {
    if s != "" {
      var w := TakeRun(s);
      var rest := s[|w|..];
      if rest == "" {
        AppendNothing(w);
        JoinCons(w, []);
        assert Words(rest) == [];
        assert s == w;
      } else {
        assert rest[0] == s[|w|];
        TrailAfter(s, |w|);
        var next := SkipRun(rest);
        WordsSkip(rest);
        if next == "" {
          TrailOfRun(rest);
        }
        SkipRunDrops(rest);
        CollapseWords(next);
        CollapseAfterRun(s, w, rest, next);
      }
    }
  }

  lemma CollapseAfterRun(s: string, w: string, rest: string, next: string)
    requires next == "" || (SlugChar(next[0]) && |next| < |rest| && next == rest[|rest| - |next|..])
    requires rest != "" && (next == "" ==> Trail(rest) == "-") && |next| < |s|
    requires next != "" ==> Collapse(next) == Join(Words(next)) + Trail(next)
    ensures w + ("-" + Collapse(next)) == Join([w] + Words(next)) + Trail(rest)
  {
    JoinCons(w, Words(next));
    if next == "" {
      AppendNothing("-");
    } else {
      TrailAfter(rest, |rest| - |next|);
      WordsStart(next);
      Regroup(w, Join(Words(next)), Trail(next));
    }
  }

  lemma WordsStart(s: string)
    requires s != "" && SlugChar(s[0])
    ensures Words(s) != []
  {
  }

  lemma {:induction false} JoinEnds(words: seq<string>)
    requires AllWords(words) && |words| > 0
    ensures Join(words) != "" && SlugChar(Join(words)[0]) && SlugChar(Join(words)[|Join(words)| - 1])
  {
    assert Word(words[0]);
    if |words| > 1 {
      JoinEnds(words[1..]);
    }
  }

  lemma StripStartOf(x: string)
    requires x == "" || x[0] != '-'
    ensures StripStart(x) == x && StripStart("-" + x) == x
  {
    assert ("-" + x)[1..] == x;
  }

  lemma StripEndOf(x: string)
    requires x == "" || x[|x| - 1] != '-'
    ensures StripEnd(x) == x && StripEnd(x + "-") == x
  {
    assert (x + "-")[..|x + "-"| - 1] == x;
  }

  /** Of a joined text, whatever hyphens stand before and after it, the two replacements leave the text. */
  lemma StripJoined(words: seq<string>, trail: string)
    requires AllWords(words) && (trail == "" || (trail == "-" && words != []))
    ensures StripEnd(StripStart(Join(words) + trail)) == Join(words)
    ensures StripEnd(StripStart("-" + (Join(words) + trail))) == Join(words)
  {
    if words != [] {
      JoinEnds(words);
    }
    assert Join(words) + "" == Join(words);
    StripStartOf(Join(words) + trail);
    StripEndOf(Join(words));
  }

  /** slugify is the words of the lower-cased text, joined by hyphens. */
  lemma SlugifyIsJoinedWords(value: string, lower: string -> string)
    ensures Slugify(value, lower) == Join(Words(lower(value)))
  {
    var s := lower(value);
    var start := SkipRun(s);
    CollapseWords(start);
    WordsSkip(s);
    StripJoined(Words(start), Trail(start));
    if s != "" && !SlugChar(s[0]) {
      assert Collapse(s) == "-" + (Join(Words(start)) + Trail(start));
    }
    if start != "" {
      WordsStart(start);
    }
  }

  // ---------- the language ----------

  lemma {:induction false} WordsOfJoin(words: seq<string>)
    requires AllWords(words)
    ensures Words(Join(words)) == words
  {
    if |words| > 0 {
      assert Word(words[0]);
      var tail := if |words| == 1 then "" else "-" + Join(words[1..]);
      RunOfWord(words[0], tail);
      assert Join(words) == words[0] + tail;
      if |words| > 1 {
        WordsOfJoin(words[1..]);
        assert tail[1..] == Join(words[1..]);
        assert Words(tail) == words[1..];
      }
      assert (words[0] + tail)[|words[0]|..] == tail;
      assert words == [words[0]] + words[1..];
    } else {
      assert words == [];
    }
  }

  lemma {:induction false} RunOfWord(w: string, tail: string)
    requires forall i | 0 <= i < |w| :: SlugChar(w[i])
    requires tail == "" || !SlugChar(tail[0])
    ensures TakeRun(w + tail) == w
  {
    if w != "" {
      RunOfWord(w[1..], tail);
      assert (w + tail)[1..] == w[1..] + tail;
    } else {
      assert w + tail == tail;
    }
  }

  /** DOCS_SLUG_REGEX.test */
  predicate SlugTest(s: string) {
    s != "" && Join(Words(s)) == s
  }

  lemma SlugTestIsRegex(s: string)
    ensures SlugTest(s) <==> IsSlug(s)
  {
    if SlugTest(s) {
      assert AllWords(Words(s)) && |Words(s)| > 0;
    }
    if IsSlug(s) {
      var words :| |words| > 0 && AllWords(words) && s == Join(words);
      WordsOfJoin(words);
      JoinEnds(words);
    }
  }

  lemma {:induction false} SlugTextOf(words: seq<string>)
    requires AllWords(words)
    ensures forall i | 0 <= i < |Join(words)| :: SlugChar(Join(words)[i]) || Join(words)[i] == '-'
  {
    if |words| > 0 {
      assert Word(words[0]);
      if |words| > 1 {
        SlugTextOf(words[1..]);
      }
    }
  }

  /** slugify gives the empty text exactly for a text without a slug character, and a slug otherwise;
      slugs are its fixed points, so doing it twice changes nothing. */
  lemma SlugifyLanguage(value: string, lower: string -> string)
    requires KeepsSlugText(lower)
    ensures Slugify(value, lower) == "" || IsSlug(Slugify(value, lower))
    ensures Slugify(value, lower) == "" <==> forall i | 0 <= i < |lower(value)| :: !SlugChar(lower(value)[i])
    ensures IsSlug(value) ==> Slugify(value, lower) == value
    ensures Slugify(Slugify(value, lower), lower) == Slugify(value, lower)
  {
    var words := Words(lower(value));
    SlugifyIsJoinedWords(value, lower);
    SlugFixed(Join(words), lower);
    SlugFixed(value, lower);
    NoWords(lower(value));
    if |words| > 0 {
      JoinEnds(words);
      assert AllWords(words);
    } else {
      SlugifyIsJoinedWords("", lower);
      assert lower("") == "";
    }
  }

  lemma SlugFixed(s: string, lower: string -> string)
    requires KeepsSlugText(lower)
    ensures IsSlug(s) ==> lower(s) == s && Slugify(s, lower) == s
  {
    if IsSlug(s) {
      var words :| |words| > 0 && AllWords(words) && s == Join(words);
      SlugTextOf(words);
      WordsOfJoin(words);
      SlugifyIsJoinedWords(s, lower);
    }
  }

  lemma {:induction false} NoWords(s: string)
    ensures Words(s) == [] <==> forall i | 0 <= i < |s| :: !SlugChar(s[i])
  {
    if s != "" && !SlugChar(s[0]) {
      NoWords(s[1..]);
      assert forall i | 0 < i < |s| :: s[i] == s[1..][i - 1];
    }
  }

  // ---------- sanitizeSlug ----------

  datatype SlugError = Empty | Malformed

  function SanitizeSlug(value: string, lower: string -> string): Result<string, SlugError> {
    if Trim(value) == "" then Failure(Empty)
    else
      var normalized := lower(Trim(value));
      if SlugTest(normalized) then Success(normalized) else Failure(Malformed)
  }

  /** What sanitizeSlug accepts is a slug, and every slug is accepted as it is. */
  lemma SanitizeSlugLanguage(value: string, lower: string -> string)
    requires KeepsSlugText(lower)
    ensures SanitizeSlug(value, lower).Success? ==> IsSlug(SanitizeSlug(value, lower).value)
    ensures SanitizeSlug(value, lower) == Failure(Empty) <==> Trim(value) == ""
    ensures Trim(value) != "" ==>
      SanitizeSlug(value, lower) == if IsSlug(lower(Trim(value))) then Success(lower(Trim(value))) else Failure(Malformed)
    ensures IsSlug(value) ==> SanitizeSlug(value, lower) == Success(value)
  {
    SlugTestIsRegex(lower(Trim(value)));
    if IsSlug(value) {
      SlugNotTrimmed(value);
      SlugFixed(value, lower);
    }
  }

  lemma SlugNotTrimmed(s: string)
    requires IsSlug(s)
    ensures s != "" && Trim(s) == s
  {
    var words :| |words| > 0 && AllWords(words) && s == Join(words);
    JoinEnds(words);
    SlugTextOf(words);
  }
}
