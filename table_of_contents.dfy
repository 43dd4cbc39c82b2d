/**
  The table of contents of a document page (`internal/templates/docs/view/script.js`):
  every h2/h3 heading gets a unique anchor id, and one link per heading
  points at it.
 */
module TableOfContents {
  import opened JsText

  // ---------------------------------------------------------------------
  // slugify: lowercase, drop what is not [a-z0-9\s-], trim,
  // whitespace runs to '-', runs of '-' to one '-'

  predicate IsLowerAlnum(c: char)
  {
    ('a' <= c <= 'z') || IsDigit(c)
  }

  /** The characters `[^a-z0-9\s-]` does not remove. */
  predicate IsSlugSource(c: char)
  {
    IsLowerAlnum(c) || IsSpace(c) || c == '-'
  }

  /** Every character of `s` is one `[^a-z0-9\s-]` keeps. */
  predicate AllSlugSource(s: string)
  {
    forall i :: 0 <= i < |s| ==> IsSlugSource(s[i])
  }

  predicate IsSlugChar(c: char)
  {
    IsLowerAlnum(c) || c == '-'
  }

  predicate AllSlugChars(s: string)
  {
    forall i :: 0 <= i < |s| ==> IsSlugChar(s[i])
  }

  /** No two adjacent dashes. */
  predicate NoDoubleDash(s: string)
  {
    forall i :: 0 <= i < |s| - 1 ==> !(s[i] == '-' && s[i + 1] == '-')
  }

  /** What `slugify` produces: only `[a-z0-9-]`, and never `--`. */
  predicate IsSlug(s: string)
  {
    AllSlugChars(s) && NoDoubleDash(s)
  }

  /** `.replace(/[^a-z0-9\s-]/g, '')` */
  function KeepSlugSource(s: string): string
  {
    if s == [] then []
    else if IsSlugSource(s[0]) then [s[0]] + KeepSlugSource(s[1..])
    else KeepSlugSource(s[1..])
  }

  /** Only kept characters remain, and text made only of them is left as it is. */
  lemma {:induction false} KeepSlugSourceFacts(s: string)
    ensures AllSlugSource(KeepSlugSource(s))
    ensures AllSlugSource(s) ==> KeepSlugSource(s) == s
  {
    if s != [] {
      KeepSlugSourceFacts(s[1..]);
      assert s == [s[0]] + s[1..];
    }
  }

  /** Trimming keeps only characters of its input. */
  lemma {:induction false} TrimKeepsSlugSource(s: string)
    requires AllSlugSource(s)
    ensures AllSlugSource(Trim(s))
  {
    var t := Trim(s);
    TrimKeepsInfix(s);
    var a :| OccursAt(s, t, a) && SpaceOutside(s, a, a + |t|);
    forall i | 0 <= i < |t| ensures IsSlugSource(t[i]) {
      assert t[i] == s[a + i];
    }
  }

  /** The rest of `s` from its first non-space character on. */
  function SkipSpaces(s: string): (r: string)
    ensures |r| <= |s|
  {
    if s != [] && IsSpace(s[0]) then SkipSpaces(s[1..]) else s
  }

  lemma {:induction false} SkipSpacesSuffix(s: string)
    ensures var r := SkipSpaces(s);
      r == s[|s| - |r|..] && (r == [] || !IsSpace(r[0]))
  {
    if s != [] && IsSpace(s[0]) {
      SkipSpacesSuffix(s[1..]);
      var r := SkipSpaces(s[1..]);
      assert s[1..][|s| - 1 - |r|..] == s[|s| - |r|..];
    }
  }

  /** The rest of `s` from its first character that is not a dash on. */
  function SkipDashes(s: string): (r: string)
    ensures |r| <= |s|
  {
    if s != [] && s[0] == '-' then SkipDashes(s[1..]) else s
  }

  lemma {:induction false} SkipDashesSuffix(s: string)
    ensures var r := SkipDashes(s);
      r == s[|s| - |r|..] && (r == [] || r[0] != '-')
  {
    if s != [] && s[0] == '-' {
      SkipDashesSuffix(s[1..]);
      var r := SkipDashes(s[1..]);
      assert s[1..][|s| - 1 - |r|..] == s[|s| - |r|..];
    }
  }

  /** `.replace(/\s+/g, '-')` */
  function DashSpaces(s: string): string
    decreases |s|
  {
    if s == [] then []
    else if IsSpace(s[0]) then ['-'] + DashSpaces(SkipSpaces(s[1..]))
    else [s[0]] + DashSpaces(s[1..])
  }

  /** With the white space turned into dashes, only slug characters remain. */
  lemma {:induction false} DashSpacesSlugChars(s: string)
    requires AllSlugSource(s)
    ensures AllSlugChars(DashSpaces(s))
    decreases |s|
  {
    if s != [] {
      if IsSpace(s[0]) {
        var t := SkipSpaces(s[1..]);
        SkipSpacesSuffix(s[1..]);
        assert AllSlugSource(t) by {
          forall i | 0 <= i < |t| ensures IsSlugSource(t[i]) {
            assert t[i] == s[|s| - |t| + i];
          }
        }
        DashSpacesSlugChars(t);
      } else {
        assert AllSlugSource(s[1..]) by {
          forall i | 0 <= i < |s| - 1 ensures IsSlugSource(s[1..][i]) {
            assert s[1..][i] == s[i + 1];
          }
        }
        DashSpacesSlugChars(s[1..]);
      }
    }
  }

  /** `.replace(/-+/g, '-')` */
  function CollapseDashes(s: string): string
    decreases |s|
  {
    if s == [] then []
    else if s[0] == '-' then ['-'] + CollapseDashes(SkipDashes(s[1..]))
    else [s[0]] + CollapseDashes(s[1..])
  }

  /** Every run of dashes becomes one dash; other characters are kept. */
  lemma {:induction false} CollapseDashesFacts(s: string)
    ensures var r := CollapseDashes(s);
      && (s == [] <==> r == [])
      && (s != [] ==> r[0] == s[0])
      && NoDoubleDash(r)
      && (AllSlugChars(s) ==> AllSlugChars(r))
    decreases |s|
  {
    if s != [] {
      var t := if s[0] == '-' then SkipDashes(s[1..]) else s[1..];
      if s[0] == '-' {
        SkipDashesSuffix(s[1..]);
        assert t == s[|s| - |t|..];
      }
      CollapseDashesFacts(t);
      var rt := CollapseDashes(t);
      var r := CollapseDashes(s);
      assert r == [s[0]] + rt;
      forall i | 0 <= i < |r| - 1 ensures !(r[i] == '-' && r[i + 1] == '-') {
        if i > 0 {
          assert r[i] == rt[i - 1] && r[i + 1] == rt[i];
        }
      }
      if AllSlugChars(s) {
        forall i | 0 <= i < |t| ensures IsSlugChar(t[i]) {
          assert t[i] == s[|s| - |t| + i];
        }
        forall i | 0 <= i < |r| ensures IsSlugChar(r[i]) {
          if i > 0 {
            assert r[i] == rt[i - 1];
          }
        }
      }
    }
  }

  /** `slugify` without its Unicode normalisation step. */
  function Slugify(value: string): string
  {
    CollapseDashes(DashSpaces(Trim(KeepSlugSource(ToLower(value)))))
  }

  lemma {:induction false} SlugifyIsSlug(value: string)
    ensures IsSlug(Slugify(value))
  {
    var kept := KeepSlugSource(ToLower(value));
    KeepSlugSourceFacts(ToLower(value));
    TrimKeepsSlugSource(kept);
    DashSpacesSlugChars(Trim(kept));
    CollapseDashesFacts(DashSpaces(Trim(kept)));
  }

  lemma {:induction false} DashSpacesIdentity(s: string)
    requires forall i :: 0 <= i < |s| ==> !IsSpace(s[i])
    ensures DashSpaces(s) == s
    decreases |s|
  {
    if s != [] {
      DashSpacesIdentity(s[1..]);
      assert s == [s[0]] + s[1..];
    }
  }

  lemma {:induction false} CollapseDashesIdentity(s: string)
    requires NoDoubleDash(s)
    ensures CollapseDashes(s) == s
    decreases |s|
  {
    if s != [] {
      assert NoDoubleDash(s[1..]) by {
        forall i | 0 <= i < |s| - 2 ensures !(s[1..][i] == '-' && s[1..][i + 1] == '-') {
          assert s[1..][i] == s[i + 1] && s[1..][i + 1] == s[i + 2];
        }
      }
      if s[0] == '-' {
        assert s[1..] == [] || s[1] != '-';
        assert SkipDashes(s[1..]) == s[1..];
      }
      CollapseDashesIdentity(s[1..]);
      assert s == [s[0]] + s[1..];
    }
  }

  /** A slug is left as it is. */
  lemma {:induction false} SlugifyFixesSlugs(s: string)
    requires IsSlug(s)
    ensures Slugify(s) == s
  {
    assert ToLower(s) == s;
    KeepSlugSourceFacts(s);
    assert KeepSlugSource(s) == s;
    TrimFacts(s);
    assert Trim(s) == s;
    DashSpacesIdentity(s);
    CollapseDashesIdentity(s);
  }

  /** `slugify` is idempotent. */
  lemma {:induction false} SlugifyIdempotent(value: string)
    ensures Slugify(Slugify(value)) == Slugify(value)
  {
    SlugifyIsSlug(value);
    SlugifyFixesSlugs(Slugify(value));
  }

  // ---------------------------------------------------------------------
  // Unique ids

  /** The candidate tried after `base` collides: `${id}-${counter}`. */
  function Suffixed(base: string, counter: nat): (r: string)
    ensures |r| > |base| + 1
  {
    base + "-" + Decimal(counter)
  }

  lemma {:induction false} SuffixedInjective(base: string, j: nat, k: nat)
    requires Suffixed(base, j) == Suffixed(base, k)
    ensures j == k
  {
    assert Suffixed(base, j)[|base| + 1..] == Decimal(j);
    assert Suffixed(base, k)[|base| + 1..] == Decimal(k);
    DecimalInjective(j, k);
  }

  /**
    `id` is what the loop picks for `base` given the ids already `used`: an
    unused id; `base` itself when it is free; otherwise the first of
    `base-2`, `base-3`, ... that is free.
   */
  ghost predicate FirstFreeCandidate(base: string, used: set<string>, id: string)
  {
    && id !in used
    && (base !in used ==> id == base)
    && (base in used ==>
          exists k :: 2 <= k && id == Suffixed(base, k) && forall j :: 2 <= j < k ==> Suffixed(base, j) in used)
  }

  /** The candidates the loop tries for `base`, in order: `base`, `base-2`, `base-3`, ... */
  function Candidate(base: string, attempt: nat): string
  {
    if attempt == 0 then base else Suffixed(base, attempt + 1)
  }

  lemma {:induction false} CandidateInjective(base: string, a: nat, b: nat)
    requires Candidate(base, a) == Candidate(base, b)
    ensures a == b
  {
    if a != 0 && b != 0 {
      SuffixedInjective(base, a + 1, b + 1);
    }
  }

  /** `n` different candidates all in `used` need `n` elements of it. */
  lemma {:induction false} CandidatesInUsed(base: string, used: set<string>, n: nat)
    requires forall j :: 0 <= j < n ==> Candidate(base, j) in used
    ensures n <= |used|
  {
    if n > 0 {
      var last := Candidate(base, n - 1);
      var rest := used - {last};
      forall j | 0 <= j < n - 1 ensures Candidate(base, j) in rest {
        if Candidate(base, j) == last {
          CandidateInjective(base, j, n - 1);
        }
      }
      CandidatesInUsed(base, rest, n - 1);
    }
  }

  /** The `while (usedIds.has(uniqueId))` loop. */
  method UniqueId(base: string, used: set<string>) returns (uniqueId: string)
    ensures FirstFreeCandidate(base, used, uniqueId)
  {
    uniqueId := base;
    var counter := 2;
    while uniqueId in used
      invariant counter >= 2
      invariant uniqueId == Candidate(base, counter - 2)
      invariant forall j :: 0 <= j < counter - 2 ==> Candidate(base, j) in used
      decreases |used| - (counter - 2)
    {
      CandidatesInUsed(base, used, counter - 1);
      uniqueId := Suffixed(base, counter);
      counter := counter + 1;
    }
    if base in used {
      assert counter > 2;
      forall j | 2 <= j < counter - 1 ensures Suffixed(base, j) in used {
        assert Candidate(base, j - 1) in used;
      }
      assert uniqueId == Suffixed(base, counter - 1);
    }
  }

  // ---------------------------------------------------------------------
  // generateTableOfContents

  /** The `h2, h3` the script selects. */
  type HeadingLevel = l: int | 2 <= l <= 3 witness 2

  /** A heading element: its level, its `id` attribute ("" when absent) and its text. */
  datatype Heading = Heading(level: HeadingLevel, id: string, text: string)

  /** A link of the table: `href`, text, and `data-level`. */
  datatype TocLink = TocLink(href: string, text: string, dataLevel: string)

  /** What the table container ends up holding. */
  datatype TocContent =
    | Untouched            // the content or the container is missing
    | NoHeadingsMessage    // "No headings found"
    | Links(links: seq<TocLink>)

  /** The id a heading asks for before it is made unique. */
  function BaseId(heading: Heading, index: nat): (id: string)
    ensures id != ""
    ensures heading.id != "" ==> id == heading.id
  {
    if heading.id != "" then heading.id
    else
      var slug := Slugify(Trim(heading.text));
      if slug != "" then slug else "heading-" + Decimal(index)
  }

  /** The set of ids in a sequence: the `usedIds` set after those ids were added. */
  function Used(ids: seq<string>): set<string>
  {
    if ids == [] then {} else Used(ids[..|ids| - 1]) + {ids[|ids| - 1]}
  }

  /** The set holds exactly the ids of the sequence. */
  lemma {:induction false} UsedMembers(ids: seq<string>)
    ensures forall x :: x in Used(ids) <==> x in ids
  {
    if ids != [] {
      var init := ids[..|ids| - 1];
      UsedMembers(init);
      assert ids == init + [ids[|ids| - 1]];
    }
  }

  lemma {:induction false} UsedSnoc(ids: seq<string>, id: string)
    ensures Used(ids + [id]) == Used(ids) + {id}
  {
    assert (ids + [id])[..|ids|] == ids;
  }

  /** Each id is the first free candidate for its base among the ids chosen before it. */
  ghost predicate UniqueAssignment(bases: seq<string>, ids: seq<string>)
  {
    && |ids| == |bases|
    && forall k :: 0 <= k < |ids| ==> FirstFreeCandidate(bases[k], Used(ids[..k]), ids[k])
  }

  lemma {:induction false} UniqueAssignmentExtend(bases: seq<string>, ids: seq<string>, base: string, id: string)
    requires UniqueAssignment(bases, ids)
    requires FirstFreeCandidate(base, Used(ids), id)
    ensures UniqueAssignment(bases + [base], ids + [id])
  {
    var bases', ids' := bases + [base], ids + [id];
    forall k | 0 <= k < |ids'| ensures FirstFreeCandidate(bases'[k], Used(ids'[..k]), ids'[k]) {
      if k < |ids| {
        assert ids'[..k] == ids[..k];
        assert bases'[k] == bases[k] && ids'[k] == ids[k];
      } else {
        assert ids'[..k] == ids;
      }
    }
  }

  /** No id repeats one chosen before it. */
  predicate FreshEach(ids: seq<string>)
  {
    forall k :: 0 <= k < |ids| ==> ids[k] !in ids[..k]
  }

  lemma {:induction false} UniqueAssignmentFresh(bases: seq<string>, ids: seq<string>)
    requires UniqueAssignment(bases, ids)
    ensures FreshEach(ids)
  {
    forall k | 0 <= k < |ids| ensures ids[k] !in ids[..k] {
      assert FirstFreeCandidate(bases[k], Used(ids[..k]), ids[k]);
      UsedMembers(ids[..k]);
    }
  }

  /** The assigned ids are pairwise distinct, so the used set grows by one per heading. */
  lemma {:induction false} FreshEachDistinct(ids: seq<string>)
    requires FreshEach(ids)
    ensures forall a, b :: 0 <= a < b < |ids| ==> ids[a] != ids[b]
    ensures |Used(ids)| == |ids|
  {
    forall a, b | 0 <= a < b < |ids| ensures ids[a] != ids[b] {
      assert ids[..b][a] == ids[a];
    }
    if ids != [] {
      var n := |ids|;
      var init := ids[..n - 1];
      assert FreshEach(init) by {
        forall k | 0 <= k < n - 1 ensures init[..k] == ids[..k] {
        }
      }
      FreshEachDistinct(init);
      assert ids[n - 1] !in init;
      UsedMembers(init);
    }
  }

  /** `f` applied to every element together with its position. */
  function MapIndexed<A, B>(xs: seq<A>, f: (A, nat) -> B): (ys: seq<B>)
    ensures |ys| == |xs|
    ensures forall k :: 0 <= k < |xs| ==> ys[k] == f(xs[k], k)
  {
    seq(|xs|, k requires 0 <= k < |xs| => f(xs[k], k))
  }

  lemma {:induction false} MapIndexedSnoc<A, B>(xs: seq<A>, f: (A, nat) -> B, i: nat)
    requires i < |xs|
    ensures MapIndexed(xs[..i + 1], f) == MapIndexed(xs[..i], f) + [f(xs[i], i)]
  {
    var longer := MapIndexed(xs[..i + 1], f);
    var extended := MapIndexed(xs[..i], f) + [f(xs[i], i)];
    forall k | 0 <= k < i + 1 ensures longer[k] == extended[k] {
      if k < i {
        assert xs[..i + 1][k] == xs[..i][k];
      }
    }
  }

  /** The base id of every heading, by position. */
  function BaseIds(headings: seq<Heading>): seq<string>
  {
    MapIndexed(headings, BaseId)
  }

  function IdsOf(headings: seq<Heading>): seq<string>
  {
    seq(|headings|, k requires 0 <= k < |headings| => headings[k].id)
  }

  /**
    The `forEach` callback for one heading: its base id made unique against
    `usedIds`, and the link to it.
   */
  method LabelHeading(heading: Heading, index: nat, usedIds: set<string>) returns (uniqueId: string, link: TocLink)
    ensures FirstFreeCandidate(BaseId(heading, index), usedIds, uniqueId)
    ensures link == TocLink("#" + uniqueId, Trim(heading.text), Decimal(heading.level))
  {
    var text := Trim(heading.text);
    var id := BaseId(heading, index);
    uniqueId := UniqueId(id, usedIds);
    link := TocLink("#" + uniqueId, text, Decimal(heading.level));
  }

  /** The headings with their ids replaced, position by position. */
  function WithIds(headings: seq<Heading>, ids: seq<string>): seq<Heading>
    requires |ids| == |headings|
  {
    seq(|headings|, k requires 0 <= k < |headings| => headings[k].(id := ids[k]))
  }

  /** One link per heading, in document order, to the heading's new id. */
  function LinksFor(headings: seq<Heading>, ids: seq<string>): seq<TocLink>
    requires |ids| == |headings|
  {
    seq(|headings|, k requires 0 <= k < |headings| =>
      TocLink("#" + ids[k], Trim(headings[k].text), Decimal(headings[k].level)))
  }

  /** One turn of the `forEach` keeps every id the first free candidate for its base. */
  lemma {:induction false} AssignStep(original: seq<Heading>, ids: seq<string>, id: string)
    requires |ids| < |original|
    requires UniqueAssignment(BaseIds(original[..|ids|]), ids)
    requires FirstFreeCandidate(BaseId(original[|ids|], |ids|), Used(ids), id)
    ensures UniqueAssignment(BaseIds(original[..|ids| + 1]), ids + [id])
  {
    var i := |ids|;
    MapIndexedSnoc(original, BaseId, i);
    UniqueAssignmentExtend(BaseIds(original[..i]), ids, BaseId(original[i], i), id);
  }

  /** One turn of the `forEach` appends the link of the heading at `|ids|`. */
  lemma {:induction false} LinkStep(original: seq<Heading>, ids: seq<string>, id: string)
    requires |ids| < |original|
    ensures var i := |ids|;
      LinksFor(original[..i + 1], ids + [id])
        == LinksFor(original[..i], ids) + [TocLink("#" + id, Trim(original[i].text), Decimal(original[i].level))]
  {
    var i := |ids|;
    var links := LinksFor(original[..i + 1], ids + [id]);
    var extended := LinksFor(original[..i], ids) + [TocLink("#" + id, Trim(original[i].text), Decimal(original[i].level))];
    assert |links| == |extended|;
    forall k | 0 <= k < |links| ensures links[k] == extended[k] {
    }
  }

  /** The table's links for the headings, whose ids are rewritten in place. */
  method LinkHeadings(headings: array<Heading>) returns (links: seq<TocLink>)
    modifies headings
    ensures headings[..] == WithIds(old(headings[..]), IdsOf(headings[..]))
    ensures links == LinksFor(old(headings[..]), IdsOf(headings[..]))
    ensures UniqueAssignment(BaseIds(old(headings[..])), IdsOf(headings[..]))
  {
    ghost var original := headings[..];
    ghost var ids: seq<string> := [];
    var usedIds: set<string> := {};
    links := [];
    for i := 0 to headings.Length
      invariant |ids| == i
      invariant forall k :: 0 <= k < i ==> headings[k] == original[k].(id := ids[k])
      invariant forall k :: i <= k < headings.Length ==> headings[k] == original[k]
      invariant UniqueAssignment(BaseIds(original[..i]), ids)
      invariant usedIds == Used(ids)
      invariant links == LinksFor(original[..i], ids)
    {
      var heading := headings[i];
      assert heading == original[i];
      var uniqueId, link := LabelHeading(heading, i, usedIds);
      AssignStep(original, ids, uniqueId);
      LinkStep(original, ids, uniqueId);
      UsedSnoc(ids, uniqueId);
      ids := ids + [uniqueId];
      usedIds := usedIds + {uniqueId};
      headings[i] := heading.(id := uniqueId);
      links := links + [link];
    }
    assert original[..headings.Length] == original;
    assert IdsOf(headings[..]) == ids;
    assert headings[..] == WithIds(original, ids);
  }

  /** `generateTableOfContents`. */
  method GenerateTableOfContents(contentFound: bool, containerFound: bool, headings: array<Heading>)
    returns (toc: TocContent)
    modifies headings
    ensures !contentFound || !containerFound ==> toc == Untouched && headings[..] == old(headings[..])
    ensures contentFound && containerFound && headings.Length == 0 ==> toc == NoHeadingsMessage
    ensures contentFound && containerFound && headings.Length > 0 ==>
      toc == Links(LinksFor(old(headings[..]), IdsOf(headings[..])))
    ensures headings[..] == WithIds(old(headings[..]), IdsOf(headings[..]))
    ensures contentFound && containerFound ==> UniqueAssignment(BaseIds(old(headings[..])), IdsOf(headings[..]))
    ensures contentFound && containerFound ==>
      forall a, b :: 0 <= a < b < headings.Length ==> headings[a].id != headings[b].id
  {
    if !contentFound || !containerFound {
      return Untouched;
    }
    if headings.Length == 0 {
      return NoHeadingsMessage;
    }
    var links := LinkHeadings(headings);
    UniqueAssignmentFresh(BaseIds(old(headings[..])), IdsOf(headings[..]));
    FreshEachDistinct(IdsOf(headings[..]));
    return Links(links);
  }
}
