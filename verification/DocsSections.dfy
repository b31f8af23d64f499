/** sanitizeSections of apps/api/src/docs/docs.service.ts: the sections of a page, with unique anchors. */
module DocsSections {
  import opened DocsSlugs
  import opened Numbers
  import opened Text
  import opened Wrappers
  import FiniteSets

  const MAX_SECTIONS := 40
  const MAX_PARAGRAPHS := 40
  const MAX_ORDER := 10_000

  /** order is None when it is missing or not finite. */
  datatype SectionInput = SectionInput(title: string, anchor: Option<string>, content: seq<string>, order: Option<real>)

  datatype Section = Section(title: string, anchor: string, content: seq<string>, order: int)

  datatype Error = EmptyTitle | BadAnchor(slug: SlugError) | EmptyAnchor | EmptyContent

  function SanitizeOrder(value: Option<real>, fallback: nat): (r: int)
    ensures value.None? ==> r == fallback
    ensures value.Some? ==> 0 <= r <= 10_000
    ensures value.Some? && value.value < 0.0 ==> r == 0
    ensures value.Some? && 0.0 <= value.value < 10_000.0 ==> r as real <= value.value < r as real + 1.0
    ensures value.Some? && value.value >= 10_000.0 ==> r == 10_000
  {
    if value.None? then fallback
    else if Trunc(value.value) < 0 then 0
    else if Trunc(value.value) > MAX_ORDER then MAX_ORDER else Trunc(value.value)
  }

  /** The paragraphs trimmed, without those that are then empty. */
  function Paragraphs(content: seq<string>): (r: seq<string>)
    ensures forall i | 0 <= i < |r| :: r[i] != "" && Trim(r[i]) == r[i]
  {
    if |content| == 0 then []
    else
      TrimIdempotent(content[0]);
      (if Trim(content[0]) == "" then [] else [Trim(content[0])]) + Paragraphs(content[1..])
  }

  function FirstFew<T>(s: seq<T>, n: nat): seq<T> {
    if |s| <= n then s else s[..n]
  }

  /** The anchor before it is made unique. */
  function BaseAnchor(input: SectionInput, lower: string -> string): Result<string, Error> {
    var requested := if input.anchor.Some? then Trim(input.anchor.value) else "";
    if requested != "" then
      var slug := SanitizeSlug(requested, lower);
      if slug.Failure? then Failure(BadAnchor(slug.error)) else Success(slug.value)
    else
      var slug := Slugify(Trim(input.title), lower);
      if slug == "" then Failure(EmptyAnchor) else Success(slug)
  }

  /** Everything about a section but the uniqueness of its anchor, which never fails. */
  function Draft(input: SectionInput, index: nat, lower: string -> string): Result<Section, Error> {
    if Trim(input.title) == "" then Failure(EmptyTitle)
    else
      var base := BaseAnchor(input, lower);
      if base.Failure? then Failure(base.error)
      else
        var content := FirstFew(Paragraphs(input.content), MAX_PARAGRAPHS);
        if content == [] then Failure(EmptyContent)
        else Success(Section(Trim(input.title), base.value, content, SanitizeOrder(input.order, index)))
  }

  // ---------- what a draft holds, and when there is none ----------

  predicate Blank(s: string) { Trim(s) == "" }

  function Trimmed(content: seq<string>): (r: seq<string>)
    ensures |r| == |content| && forall i | 0 <= i < |r| :: r[i] == Trim(content[i])
  {
    seq(|content|, i requires 0 <= i < |content| => Trim(content[i]))
  }

  /** The texts at these places: all that are not empty, in their order. */
  ghost predicate PickedAt(texts: seq<string>, picked: seq<string>, places: seq<int>) {
    && |places| == |picked|
    && (forall i | 0 <= i < |places| :: 0 <= places[i] < |texts| && picked[i] == texts[places[i]])
    && (forall i, j | 0 <= i < j < |places| :: places[i] < places[j])
    && (forall k | 0 <= k < |texts| :: k in places <==> texts[k] != "")
  }

  /** The paragraphs of a section are the trimmed texts that are not empty. */
  lemma ParagraphsPicked(content: seq<string>)
    ensures exists places :: PickedAt(Trimmed(content), Paragraphs(content), places)
  {
    var places := ParagraphPlaces(content, Trimmed(content));
    assert PickedAt(Trimmed(content), Paragraphs(content), places);
  }

  lemma {:induction false} ParagraphPlaces(content: seq<string>, texts: seq<string>) returns (places: seq<int>)
    requires |texts| == |content| && forall i | 0 <= i < |content| :: texts[i] == Trim(content[i])
    ensures PickedAt(texts, Paragraphs(content), places)
  {
    if |content| == 0 {
      places := [];
    } else {
      var rest := ParagraphPlaces(content[1..], texts[1..]);
      places := PlacesNext(texts, texts[1..], Paragraphs(content[1..]), rest);
      assert Paragraphs(content) == (if texts[0] == "" then [] else [texts[0]]) + Paragraphs(content[1..]);
    }
  }

  lemma PlacesNext(all: seq<string>, texts: seq<string>, picked: seq<string>, rest: seq<int>) returns (places: seq<int>)
    requires |all| > 0 && texts == all[1..] && PickedAt(texts, picked, rest)
    ensures PickedAt(all, (if all[0] == "" then [] else [all[0]]) + picked, places)
  {
    var shifted := seq(|rest|, i requires 0 <= i < |rest| => rest[i] + 1);
    PlacesMoved(all, texts, picked, rest, shifted);
    if all[0] == "" {
      places := shifted;
      assert [] + picked == picked;
    } else {
      places := [0] + shifted;
      ZeroFirst(all, picked, shifted);
    }
  }

  lemma ShiftedIn(rest: seq<int>, shifted: seq<int>, k: int)
    requires |shifted| == |rest| && forall i | 0 <= i < |rest| :: shifted[i] == rest[i] + 1
    ensures k in shifted <==> k - 1 in rest
  {
    if k in shifted {
      var i :| 0 <= i < |shifted| && shifted[i] == k;
      assert rest[i] == k - 1;
    }
    if k - 1 in rest {
      var i :| 0 <= i < |rest| && rest[i] == k - 1;
      assert shifted[i] == k;
    }
  }

  lemma PlacesMoved(all: seq<string>, texts: seq<string>, picked: seq<string>, rest: seq<int>, shifted: seq<int>)
    requires PickedAt(texts, picked, rest) && |all| == |texts| + 1 && forall k | 0 <= k < |texts| :: all[k + 1] == texts[k]
    requires |shifted| == |rest| && forall i | 0 <= i < |rest| :: shifted[i] == rest[i] + 1
    ensures forall i | 0 <= i < |shifted| :: 0 < shifted[i] < |all| && picked[i] == all[shifted[i]]
    ensures forall i, j | 0 <= i < j < |shifted| :: shifted[i] < shifted[j]
    ensures forall k | 0 <= k < |all| :: k in shifted <==> k > 0 && all[k] != ""
  {
    forall i | 0 <= i < |shifted| ensures 0 < shifted[i] < |all| && picked[i] == all[shifted[i]] {
      assert all[rest[i] + 1] == texts[rest[i]];
    }
    forall k | 0 <= k < |all| ensures k in shifted <==> k > 0 && all[k] != "" {
      ShiftedIn(rest, shifted, k);
      if k > 0 {
        assert all[k - 1 + 1] == texts[k - 1];
      }
    }
  }

  lemma ZeroFirst(all: seq<string>, picked: seq<string>, shifted: seq<int>)
    requires |all| > 0 && all[0] != "" && |shifted| == |picked|
    requires forall i | 0 <= i < |shifted| :: 0 < shifted[i] < |all| && picked[i] == all[shifted[i]]
    requires forall i, j | 0 <= i < j < |shifted| :: shifted[i] < shifted[j]
    requires forall k | 0 <= k < |all| :: k in shifted <==> k > 0 && all[k] != ""
    ensures PickedAt(all, [all[0]] + picked, [0] + shifted)
  {
    var places, ps := [0] + shifted, [all[0]] + picked;
    forall i | 0 <= i < |places| ensures 0 <= places[i] < |all| && ps[i] == all[places[i]] {
      if i > 0 {
        assert places[i] == shifted[i - 1] && ps[i] == picked[i - 1];
      }
    }
    forall i, j | 0 <= i < j < |places| ensures places[i] < places[j] {
      assert places[j] == shifted[j - 1];
      if i > 0 {
        assert places[i] == shifted[i - 1];
      }
    }
    forall k | 0 <= k < |all| ensures k in places <==> all[k] != "" {
      InCons(shifted, k);
    }
  }

  lemma InCons(s: seq<int>, k: int)
    ensures k in [0] + s <==> k == 0 || k in s
  {
  }

  predicate AnchorRequested(input: SectionInput) {
    input.anchor.Some? && !Blank(input.anchor.value)
  }

  /** An anchor was requested that is no slug in lower case. */
  ghost predicate AnchorIsBad(input: SectionInput, lower: string -> string) {
    AnchorRequested(input) && !IsSlug(lower(Trim(input.anchor.value)))
  }

  /** No anchor was requested, and the title has no slug character. */
  ghost predicate AnchorIsEmpty(input: SectionInput, lower: string -> string) {
    !AnchorRequested(input) && forall c | c in lower(Trim(input.title)) :: !SlugChar(c)
  }

  lemma BaseAnchorOutcome(input: SectionInput, lower: string -> string)
    requires KeepsSlugText(lower)
    ensures var r := BaseAnchor(input, lower);
      && (AnchorIsBad(input, lower) <==> r.Failure? && r.error.BadAnchor?)
      && (AnchorIsEmpty(input, lower) <==> r == Failure(EmptyAnchor))
      && (r.Failure? ==> r.error.BadAnchor? || r.error.EmptyAnchor?)
  {
    if AnchorRequested(input) {
      TrimIdempotent(input.anchor.value);
      SlugTestIsRegex(lower(Trim(input.anchor.value)));
    } else {
      SlugifyLanguage(Trim(input.title), lower);
    }
  }

  /** A section is refused for a blank title; else for its anchor; else when all its paragraphs are blank. */
  lemma DraftRefused(input: SectionInput, index: nat, lower: string -> string)
    requires KeepsSlugText(lower)
    ensures
      var r := Draft(input, index, lower);
      && (r == Failure(EmptyTitle) <==> Blank(input.title))
      && (r.Failure? && r.error.BadAnchor? <==> !Blank(input.title) && AnchorIsBad(input, lower))
      && (r == Failure(EmptyAnchor) <==> !Blank(input.title) && AnchorIsEmpty(input, lower))
      && (r == Failure(EmptyContent) <==>
            && !Blank(input.title) && !AnchorIsBad(input, lower) && !AnchorIsEmpty(input, lower)
            && forall k | 0 <= k < |input.content| :: Blank(input.content[k]))
  {
    BaseAnchorOutcome(input, lower);
    NoneLeft(input.content);
  }

  lemma {:induction false} NoneLeft(content: seq<string>)
    ensures Paragraphs(content) == [] <==> forall k | 0 <= k < |content| :: Blank(content[k])
  {
    if |content| > 0 {
      NoneLeft(content[1..]);
      assert forall k | 0 <= k < |content| :: content[k] == if k == 0 then content[0] else content[1..][k - 1];
    }
  }

  /** Otherwise it has the trimmed title, the requested anchor in lower case or else the title's words joined, the
      first forty paragraphs that are not blank, and its order. */
  lemma DraftHolds(input: SectionInput, index: nat, lower: string -> string)
    requires Draft(input, index, lower).Success?
    ensures
      var d := Draft(input, index, lower).value;
      && d.title == Trim(input.title) && d.order == SanitizeOrder(input.order, index)
      && d.anchor == (if AnchorRequested(input) then lower(Trim(input.anchor.value)) else Join(Words(lower(Trim(input.title)))))
      && exists all, places :: PickedAt(Trimmed(input.content), all, places) && FirstForty(d.content, all)
  {
    SlugifyIsJoinedWords(Trim(input.title), lower);
    if AnchorRequested(input) {
      TrimIdempotent(input.anchor.value);
    }
    ParagraphsPicked(input.content);
    var places :| PickedAt(Trimmed(input.content), Paragraphs(input.content), places);
    assert FirstForty(FirstFew(Paragraphs(input.content), MAX_PARAGRAPHS), Paragraphs(input.content));
  }

  predicate FirstForty(few: seq<string>, all: seq<string>) {
    few <= all && (if |all| <= 40 then few == all else |few| == 40)
  }

  // ---------- unique anchors ----------

  /** The k-th name tried for an anchor: base, base-2, base-3, ... */
  function Candidate(base: string, k: nat): string {
    if k <= 1 then base else base + "-" + Decimal(k)
  }

  lemma CandidatesDiffer(base: string, j: nat, k: nat)
    requires 1 <= j < k
    ensures Candidate(base, j) != Candidate(base, k)
  {
    if j > 1 && Candidate(base, j) == Candidate(base, k) {
      assert Decimal(j) == Candidate(base, j)[|base| + 1..];
      assert Decimal(k) == Candidate(base, k)[|base| + 1..];
      DecimalInjective(j, k);
    }
  }

  lemma {:induction false} JoinSnoc(words: seq<string>, w: string)
    requires |words| > 0
    ensures Join(words + [w]) == Join(words) + "-" + w
  {
    if |words| == 1 {
      assert (words + [w])[1..] == [w];
    } else {
      JoinSnoc(words[1..], w);
      assert (words + [w])[1..] == words[1..] + [w];
      assert words[0] + "-" + (Join(words[1..]) + "-" + w) == (words[0] + "-" + Join(words[1..])) + "-" + w;
    }
  }

  /** Every name tried for a slug is a slug. */
  lemma CandidateIsSlug(base: string, k: nat)
    requires IsSlug(base)
    ensures IsSlug(Candidate(base, k))
  {
    if k > 1 {
      var words :| |words| > 0 && AllWords(words) && base == Join(words);
      JoinSnoc(words, Decimal(k));
      assert Word(Decimal(k));
      assert AllWords(words + [Decimal(k)]);
    }
  }

  /** The first name tried that is free. */
  ghost predicate FirstFree(used: set<string>, base: string, anchor: string) {
    anchor !in used && exists k :: k >= 1 && anchor == Candidate(base, k) && forall j | 1 <= j < k :: Candidate(base, j) in used
  }

  /** The while loop of sanitizeSections. It ends: the names tried so far are different and all in use. */
  method UniqueAnchor(used: set<string>, base: string) returns (anchor: string)
    ensures FirstFree(used, base, anchor)
  {
    anchor := base;
    var counter := 2;
    ghost var tried := {};
    while anchor in used
      invariant counter >= 2 && anchor == Candidate(base, counter - 1)
      invariant forall j | 1 <= j < counter - 1 :: Candidate(base, j) in used
      invariant tried <= used && |tried| == counter - 2
      invariant forall a | a in tried :: exists j :: 1 <= j < counter - 1 && a == Candidate(base, j)
      decreases |used| + 2 - counter
    {
      assert anchor !in tried by {
        if anchor in tried {
          var j :| 1 <= j < counter - 1 && anchor == Candidate(base, j);
          CandidatesDiffer(base, j, counter - 1);
        }
      }
      tried := tried + {anchor};
      FiniteSets.SubsetCard(tried, used);
      anchor := base + "-" + Decimal(counter);
      counter := counter + 1;
    }
  }

  function Elements(anchors: seq<string>): set<string> {
    set i | 0 <= i < |anchors| :: anchors[i]
  }

  /** The anchors given to sections with these base anchors, in order. */
  ghost predicate Assigned(bases: seq<string>, anchors: seq<string>) {
    |anchors| == |bases| && forall i | 0 <= i < |bases| :: FirstFree(Elements(anchors[..i]), bases[i], anchors[i])
  }

  /** They are pairwise distinct, and slugs when the base anchors are. */
  lemma AssignedDistinctSlugs(bases: seq<string>, anchors: seq<string>)
    requires Assigned(bases, anchors)
    ensures forall i, j | 0 <= i < j < |anchors| :: anchors[i] != anchors[j]
    ensures (forall i | 0 <= i < |bases| :: IsSlug(bases[i])) ==> forall i | 0 <= i < |anchors| :: IsSlug(anchors[i])
  {
    forall i, j | 0 <= i < j < |anchors| ensures anchors[i] != anchors[j] {
      assert FirstFree(Elements(anchors[..j]), bases[j], anchors[j]);
      assert anchors[..j][i] == anchors[i];
    }
    if forall i | 0 <= i < |bases| :: IsSlug(bases[i]) {
      forall i | 0 <= i < |anchors| ensures IsSlug(anchors[i]) {
        assert FirstFree(Elements(anchors[..i]), bases[i], anchors[i]);
        var k :| k >= 1 && anchors[i] == Candidate(bases[i], k);
        CandidateIsSlug(bases[i], k);
      }
    }
  }

  lemma FirstFreeUnique(used: set<string>, base: string, a: string, b: string)
    requires FirstFree(used, base, a) && FirstFree(used, base, b)
    ensures a == b
  {
    var k :| k >= 1 && a == Candidate(base, k) && forall j | 1 <= j < k :: Candidate(base, j) in used;
    var l :| l >= 1 && b == Candidate(base, l) && forall j | 1 <= j < l :: Candidate(base, j) in used;
    assert k >= l && l >= k;
  }

  lemma NextAgrees(bases: seq<string>, anchors: seq<string>, others: seq<string>, n: nat)
    requires Assigned(bases, anchors) && Assigned(bases, others) && n < |bases| && anchors[..n] == others[..n]
    ensures anchors[n] == others[n]
  {
    FirstFreeUnique(Elements(anchors[..n]), bases[n], anchors[n], others[n]);
  }

  lemma {:induction false} PrefixesAgree(bases: seq<string>, anchors: seq<string>, others: seq<string>, n: nat)
    requires Assigned(bases, anchors) && Assigned(bases, others) && n <= |bases|
    ensures forall i | 0 <= i < n :: anchors[i] == others[i]
  {
    if n > 0 {
      PrefixesAgree(bases, anchors, others, n - 1);
      assert anchors[..n - 1] == others[..n - 1];
      NextAgrees(bases, anchors, others, n - 1);
    }
  }

  /** There is one way to assign them. */
  lemma AssignedUnique(bases: seq<string>, anchors: seq<string>, others: seq<string>)
    requires Assigned(bases, anchors) && Assigned(bases, others)
    ensures anchors == others
  {
    PrefixesAgree(bases, anchors, others, |bases|);
  }

  /** Anchors that are already distinct are kept: saving a page again does not rename its sections. */
  lemma DistinctKept(bases: seq<string>, anchors: seq<string>)
    requires Assigned(bases, anchors) && forall i, j | 0 <= i < j < |bases| :: bases[i] != bases[j]
    ensures anchors == bases
  {
    forall i | 0 <= i < |bases| ensures FirstFree(Elements(bases[..i]), bases[i], bases[i]) {
      assert Candidate(bases[i], 1) == bases[i];
    }
    AssignedUnique(bases, anchors, bases);
  }

  // ---------- all sections ----------

  ghost predicate AllDrafted(inputs: seq<SectionInput>, lower: string -> string, n: nat)
    requires n <= |inputs|
  {
    forall i | 0 <= i < n :: Draft(inputs[i], i, lower).Success?
  }

  function Anchors(sections: seq<Section>): seq<string> {
    seq(|sections|, i requires 0 <= i < |sections| => sections[i].anchor)
  }

  /** The drafts, with unique anchors. */
  ghost predicate Sanitized(inputs: seq<SectionInput>, lower: string -> string, sections: seq<Section>) {
    && |sections| <= |inputs| && AllDrafted(inputs, lower, |sections|)
    && forall i | 0 <= i < |sections| ::
         var draft := Draft(inputs[i], i, lower).value;
         && sections[i] == draft.(anchor := sections[i].anchor)
         && FirstFree(Elements(Anchors(sections)[..i]), draft.anchor, sections[i].anchor)
  }

  /** A page is refused exactly when one of its first forty sections is, with the error of the first of them. */
  method SanitizeSections(sections: seq<SectionInput>, lower: string -> string) returns (r: Result<seq<Section>, Error>)
    ensures var inputs := if |sections| <= 40 then sections else sections[..40];
            if AllDrafted(inputs, lower, |inputs|) then r.Success? && |r.value| == |inputs| && Sanitized(inputs, lower, r.value)
            else r.Failure? && exists i :: 0 <= i < |inputs| && AllDrafted(inputs, lower, i)
                                           && Draft(inputs[i], i, lower) == Failure(r.error)
  {
    var inputs := FirstFew(sections, MAX_SECTIONS);
    var usedAnchors: set<string> := {};
    var out: seq<Section> := [];
    var index := 0;
    while index < |inputs|
      invariant 0 <= index <= |inputs| && |out| == index
      invariant usedAnchors == Elements(Anchors(out)) && Sanitized(inputs, lower, out)
    {
      var draft := Draft(inputs[index], index, lower);
      if draft.Failure? {
        return Failure(draft.error);
      }
      var uniqueAnchor := UniqueAnchor(usedAnchors, draft.value.anchor);
      SanitizedOneMore(inputs, lower, out, uniqueAnchor);
      out := out + [draft.value.(anchor := uniqueAnchor)];
      usedAnchors := usedAnchors + {uniqueAnchor};
      index := index + 1;
    }
    return Success(out);
  }

  lemma AnchorsBefore(out: seq<Section>, anchor: string, i: nat)
    requires i <= |out|
    ensures (Anchors(out) + [anchor])[..i] == Anchors(out)[..i]
    ensures Anchors(out)[..|out|] == Anchors(out)
  {
  }

  lemma SanitizedOneMore(inputs: seq<SectionInput>, lower: string -> string, out: seq<Section>, anchor: string)
    requires |out| < |inputs| && Sanitized(inputs, lower, out) && Draft(inputs[|out|], |out|, lower).Success?
    requires FirstFree(Elements(Anchors(out)), Draft(inputs[|out|], |out|, lower).value.anchor, anchor)
    ensures
      var more := out + [Draft(inputs[|out|], |out|, lower).value.(anchor := anchor)];
      Sanitized(inputs, lower, more) && Elements(Anchors(more)) == Elements(Anchors(out)) + {anchor}
  {
    var more := out + [Draft(inputs[|out|], |out|, lower).value.(anchor := anchor)];
    assert Anchors(more) == Anchors(out) + [anchor];
    forall i | 0 <= i < |more|
      ensures FirstFree(Elements(Anchors(more)[..i]), Draft(inputs[i], i, lower).value.anchor, more[i].anchor)
    {
      AnchorsBefore(out, anchor, i);
    }
    ElementsSnoc(Anchors(out), anchor);
  }

  lemma ElementsSnoc(anchors: seq<string>, anchor: string)
    ensures Elements(anchors + [anchor]) == Elements(anchors) + {anchor}
  {
    assert (anchors + [anchor])[|anchors|] == anchor;
    assert forall i | 0 <= i < |anchors| :: (anchors + [anchor])[i] == anchors[i];
  }

  ghost function Bases(inputs: seq<SectionInput>, lower: string -> string, n: nat): seq<string>
    requires n <= |inputs| && AllDrafted(inputs, lower, n)
  {
    seq(n, i requires 0 <= i < n => Draft(inputs[i], i, lower).value.anchor)
  }

  lemma SanitizedAssigned(inputs: seq<SectionInput>, lower: string -> string, sections: seq<Section>)
    requires Sanitized(inputs, lower, sections)
    ensures Assigned(Bases(inputs, lower, |sections|), Anchors(sections))
  {
  }

  /** On success the anchors are pairwise distinct slugs, and titles and contents are not empty. */
  lemma SanitizedPage(inputs: seq<SectionInput>, lower: string -> string, sections: seq<Section>)
    requires KeepsSlugText(lower) && Sanitized(inputs, lower, sections)
    ensures forall i, j | 0 <= i < j < |sections| :: sections[i].anchor != sections[j].anchor
    ensures forall i | 0 <= i < |sections| ::
      IsSlug(sections[i].anchor) && sections[i].title != "" && 0 < |sections[i].content| <= MAX_PARAGRAPHS
  {
    var bases := Bases(inputs, lower, |sections|);
    SanitizedAssigned(inputs, lower, sections);
    forall i | 0 <= i < |bases| ensures IsSlug(bases[i]) {
      DraftAnchorIsSlug(inputs[i], i, lower);
    }
    AssignedDistinctSlugs(bases, Anchors(sections));
    forall i, j | 0 <= i < j < |sections| ensures sections[i].anchor != sections[j].anchor {
      assert Anchors(sections)[i] != Anchors(sections)[j];
    }
    forall i | 0 <= i < |sections|
      ensures IsSlug(sections[i].anchor) && sections[i].title != "" && 0 < |sections[i].content| <= MAX_PARAGRAPHS
    {
      assert IsSlug(Anchors(sections)[i]);
      DraftParts(inputs[i], i, lower);
    }
  }

  lemma DraftParts(input: SectionInput, index: nat, lower: string -> string)
    requires Draft(input, index, lower).Success?
    ensures var draft := Draft(input, index, lower).value;
      draft.title != "" && 0 < |draft.content| <= MAX_PARAGRAPHS
  {
  }

  lemma BaseAnchorIsSlug(input: SectionInput, lower: string -> string)
    requires KeepsSlugText(lower) && BaseAnchor(input, lower).Success?
    ensures IsSlug(BaseAnchor(input, lower).value)
  {
    if input.anchor.Some? {
      SanitizeSlugLanguage(Trim(input.anchor.value), lower);
    }
    SlugifyLanguage(Trim(input.title), lower);
  }

  lemma DraftAnchorIsSlug(input: SectionInput, index: nat, lower: string -> string)
    requires KeepsSlugText(lower) && Draft(input, index, lower).Success?
    ensures IsSlug(Draft(input, index, lower).value.anchor)
  {
    BaseAnchorIsSlug(input, lower);
  }

  // ---------- saving a page again ----------

  /** A stored section as the editor sends it back. */
  function AsInput(section: Section): SectionInput {
    SectionInput(section.title, Some(section.anchor), section.content, Some(section.order as real))
  }

  lemma {:induction false} ParagraphsKept(content: seq<string>)
    requires forall i | 0 <= i < |content| :: content[i] != "" && Trim(content[i]) == content[i]
    ensures Paragraphs(content) == content
  {
    if |content| > 0 {
      ParagraphsKept(content[1..]);
      assert content == [content[0]] + content[1..];
    }
  }

  lemma SlugIsTrimmed(s: string)
    requires IsSlug(s)
    ensures Trim(s) == s && s != ""
  {
    var words :| |words| > 0 && AllWords(words) && s == Join(words);
    JoinEnds(words);
    SlugTextOf(words);
  }

  lemma ContentAgain(content: seq<string>)
    ensures
      var kept := FirstFew(Paragraphs(content), MAX_PARAGRAPHS);
      FirstFew(Paragraphs(kept), MAX_PARAGRAPHS) == kept
  {
    var kept := FirstFew(Paragraphs(content), MAX_PARAGRAPHS);
    forall i | 0 <= i < |kept| ensures kept[i] != "" && Trim(kept[i]) == kept[i] {
      assert kept[i] == Paragraphs(content)[i];
    }
    ParagraphsKept(kept);
  }

  lemma OrderAgain(order: int, at: nat)
    requires 0 <= order <= MAX_ORDER
    ensures SanitizeOrder(Some(order as real), at) == order
  {
    assert (order as real).Floor == order;
  }

  lemma BaseAnchorAgain(section: Section, lower: string -> string)
    requires KeepsSlugText(lower) && IsSlug(section.anchor)
    ensures BaseAnchor(AsInput(section), lower) == Success(section.anchor)
  {
    SlugIsTrimmed(section.anchor);
    SanitizeSlugLanguage(section.anchor, lower);
  }

  /** A section whose parts are as a draft leaves them is its own draft. */
  lemma DraftAgain(section: Section, at: nat, lower: string -> string)
    requires BaseAnchor(AsInput(section), lower) == Success(section.anchor)
    requires Trim(section.title) == section.title != "" && section.content != []
    requires FirstFew(Paragraphs(section.content), MAX_PARAGRAPHS) == section.content
    requires SanitizeOrder(Some(section.order as real), at) == section.order
    ensures Draft(AsInput(section), at, lower) == Success(section)
  {
  }

  lemma SectionAgain(input: SectionInput, index: nat, lower: string -> string, section: Section, at: nat)
    requires KeepsSlugText(lower) && index < MAX_SECTIONS && Draft(input, index, lower).Success?
    requires IsSlug(section.anchor) && section == Draft(input, index, lower).value.(anchor := section.anchor)
    ensures Draft(AsInput(section), at, lower) == Success(section)
  {
    BaseAnchorAgain(section, lower);
    TrimIdempotent(input.title);
    ContentAgain(input.content);
    OrderAgain(SanitizeOrder(input.order, index), at);
    DraftAgain(section, at, lower);
  }

  /** Sending back the sections a page was saved with saves the very same sections. */
  lemma SavingAgain(inputs: seq<SectionInput>, lower: string -> string, sections: seq<Section>, again: seq<Section>)
    requires KeepsSlugText(lower) && |inputs| <= MAX_SECTIONS && Sanitized(inputs, lower, sections)
    requires Sanitized(seq(|sections|, i requires 0 <= i < |sections| => AsInput(sections[i])), lower, again)
    requires |again| == |sections|
    ensures again == sections
  {
    SanitizedPage(inputs, lower, sections);
    forall i | 0 <= i < |sections|
      ensures Draft(AsInput(sections[i]), i, lower) == Success(sections[i])
      ensures FirstFree(Elements(Anchors(again)[..i]), Anchors(sections)[i], Anchors(again)[i])
    {
      SectionAgain(inputs[i], i, lower, sections[i], i);
      assert again[i] == sections[i].(anchor := again[i].anchor);
    }
    DistinctKept(Anchors(sections), Anchors(again));
    forall i | 0 <= i < |sections| ensures again[i] == sections[i] {
      assert Anchors(again)[i] == Anchors(sections)[i];
    }
  }
}
