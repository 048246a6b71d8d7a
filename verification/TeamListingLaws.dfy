/** The scanner undoes rendering, and never reads a title past the next link
    unless a slug is not closed before it. */
module TeamListingLaws {
  import opened Text
  import opened Entities
  import opened TeamListing

  // ---------- occurrences in a concatenation ----------

  ghost predicate Free(s: string, pat: string) { forall i {:trigger OccursAt(s, pat, i)} :: !OccursAt(s, pat, i) }

  /** No occurrence of `pat` lies across the seam between `a` and `b`. */
  predicate Seam(a: string, b: string, pat: string) {
    || a == [] || b == []
    || (pat != [] && a[|a| - 1] !in pat[..|pat| - 1])
    || (pat != [] && b[0] !in pat[1..])
  }

  lemma Overlap(a: string, b: string, pat: string, i: nat)
    requires i < |a| < i + |pat| && OccursAt(a + b, pat, i)
    ensures b != [] && b[0] in pat[1..] && a[|a| - 1] in pat[..|pat| - 1]
  {
    var found, k := (a + b)[i..i + |pat|], |a| - i;
    assert found[k] == b[0] && found[k - 1] == a[|a| - 1];
    assert pat[1..][k - 1] == pat[k] && pat[..|pat| - 1][k - 1] == pat[k - 1];
  }

  lemma SplitOccurrence(a: string, b: string, pat: string, i: nat)
    requires pat != [] && Seam(a, b, pat) && i < |a| && OccursAt(a + b, pat, i)
    ensures OccursAt(a, pat, i)
  {
    if i + |pat| > |a| {
      Overlap(a, b, pat, i);
      assert false;
    }
    assert (a + b)[i..i + |pat|] == a[i..i + |pat|];
  }

  lemma ShiftOccurrence(a: string, b: string, pat: string, i: nat)
    requires i >= |a| && OccursAt(a + b, pat, i)
    ensures OccursAt(b, pat, i - |a|)
  {
    assert (a + b)[i..i + |pat|] == b[i - |a|..i - |a| + |pat|];
  }

  lemma FreeConcat(a: string, b: string, pat: string)
    requires pat != [] && Seam(a, b, pat) && Free(a, pat) && Free(b, pat)
    ensures Free(a + b, pat)
  {
    hide Seam;
    forall i: nat ensures !OccursAt(a + b, pat, i) {
      if OccursAt(a + b, pat, i) {
        hide OccursAt;
        if i < |a| { SplitOccurrence(a, b, pat, i); } else { ShiftOccurrence(a, b, pat, i); }
      }
    }
  }

  lemma NotHere(s: string, pat: string, i: nat, k: nat)
    requires k < |pat| && (i + k < |s| ==> s[i + k] != pat[k])
    ensures !OccursAt(s, pat, i)
  {
    if 0 <= i <= |s| - |pat| { assert s[i..i + |pat|][k] == s[i + k]; }
  }

  lemma FreeWithout(s: string, pat: string, k: nat)
    requires k < |pat| && pat[k] !in s
    ensures Free(s, pat)
  {
    forall i: nat ensures !OccursAt(s, pat, i) {
      NotHere(s, pat, i, k);
    }
  }

  lemma FirstAt(s: string, pat: string, i: nat)
    requires OccursAt(s, pat, i)
    requires forall j {:trigger OccursAt(s, pat, j)} :: 0 <= j < i ==> !OccursAt(s, pat, j)
    ensures FindFrom(s, pat, 0) == Some(i)
  {
    FindIs(s, pat, 0, i);
  }

  // ---------- links ----------

  lemma LinkChars()
    ensures LINK_PREFIX[0] == 'h' && LINK_PREFIX[1] == 'r' && LINK_PREFIX[2] == 'e' && LINK_PREFIX[3] == 'f' && LINK_PREFIX[4] == '='
    ensures LINK_PREFIX[5] == '"'
  {
  }

  lemma LinkHost()
    ensures LINK_PREFIX[7] == 't' && LINK_PREFIX[11] == ':'
  {
  }

  lemma LinkIsNoTag()
    ensures '<' !in LINK_PREFIX && '>' !in LINK_PREFIX
  {
  }

  /** Only at position 6 could a link begin anew. */
  lemma LinkHasNoBorder(k: nat)
    requires 0 < k < |LINK_PREFIX| && k != 6
    ensures LINK_PREFIX[k] != 'h'
  {
  }

  /** No link begins within another: a text without links followed by one has
      its first link there. */
  lemma FirstLink(x: string, more: string)
    requires Free(x, LINK_PREFIX)
    ensures FindFrom(x + (LINK_PREFIX + more), LINK_PREFIX, 0) == Some(|x|)
  {
    var s := x + (LINK_PREFIX + more);
    hide FindFrom, OccursAt, Free;
    LinkThere(x, more);
    forall j | 0 <= j < |x| ensures !OccursAt(s, LINK_PREFIX, j) {
      NoEarlierLink(x, more, j);
    }
    FirstAt(s, LINK_PREFIX, |x|);
  }

  lemma LinkThere(x: string, more: string)
    ensures OccursAt(x + (LINK_PREFIX + more), LINK_PREFIX, |x|)
  {
    Slices(x, LINK_PREFIX, more);
  }

  lemma NoEarlierLink(x: string, more: string, j: nat)
    requires Free(x, LINK_PREFIX) && j < |x|
    ensures !OccursAt(x + (LINK_PREFIX + more), LINK_PREFIX, j)
  {
    var s, k := x + (LINK_PREFIX + more), |x| - j;
    if k >= |LINK_PREFIX| {
      if OccursAt(s, LINK_PREFIX, j) { InsideOccurrence(x, LINK_PREFIX + more, LINK_PREFIX, j); }
    } else {
      assert s[j + k] == LINK_PREFIX[0] && s[j + k + 1] == LINK_PREFIX[1];
      LinkChars();
      LinkHost();
      if k != 6 { LinkHasNoBorder(k); }
      NotHere(s, LINK_PREFIX, j, if k == 6 then 7 else k);
    }
  }

  lemma InsideOccurrence(a: string, b: string, pat: string, i: nat)
    requires i + |pat| <= |a| && OccursAt(a + b, pat, i)
    ensures OccursAt(a, pat, i)
  {
    assert (a + b)[i..i + |pat|] == a[i..i + |pat|];
  }

  // ---------- rendering ----------

  /** One team of a rendered page: what precedes its link, the slug, what stands
      between the slug's closing quote and the title, and the title. */
  datatype Team = Team(lead: string, slug: string, mid: string, title: string)

  ghost predicate Good(t: Team) {
    && Free(t.lead, LINK_PREFIX) && Free(t.mid, LINK_PREFIX) && Free(t.mid, "<h3")
    && t.slug != [] && '"' !in t.slug
    && t.title != [] && Trimmed(t.title)
  }

  function Opened(t: Team): string { "\"" + t.mid }

  function HeadingOf(shown: string): string { "<h3 class=\"teamsTeam--title\">" + (shown + "</h3>") }

  function Heading(title: string): string { HeadingOf(Escape(title)) }

  function Body(t: Team): string { Opened(t) + Heading(t.title) }

  function Anchor(t: Team): string { LINK_PREFIX + (t.slug + Body(t)) }

  function Render(teams: seq<Team>, trailer: string): string {
    if teams == [] then trailer else teams[0].lead + (Anchor(teams[0]) + Render(teams[1..], trailer))
  }

  lemma {:induction false} EscapedIsPlain(s: string)
    ensures '"' !in Escape(s) && '<' !in Escape(s)
    ensures |Escape(s)| >= |s| && (Trimmed(s) ==> Trimmed(Escape(s)))
  {
    if s != [] {
      EscapedIsPlain(s[1..]);
      var head, tail := EscapeChar(s[0]), Escape(s[1..]);
      assert head == [s[0]] || (head[0] == '&' && head[|head| - 1] == ';' && '"' !in head && '<' !in head);
      assert !IsSpace('&') && !IsSpace(';');
      EscapeEnds(s);
    }
  }

  lemma {:induction false} EscapeEnds(s: string)
    requires s != []
    ensures Escape(s) != []
    ensures !IsSpace(s[0]) ==> !IsSpace(Escape(s)[0])
    ensures !IsSpace(s[|s| - 1]) ==> !IsSpace(Escape(s)[|Escape(s)| - 1])
  {
    var head := EscapeChar(s[0]);
    assert head == [s[0]] || (head[0] == '&' && head[|head| - 1] == ';');
    if |s| > 1 {
      EscapeEnds(s[1..]);
      assert s[1..][|s| - 2] == s[|s| - 1];
    } else {
      assert Escape(s[1..]) == [];
    }
  }

  lemma HeadingIsFree(title: string)
    ensures Free(Heading(title), LINK_PREFIX)
  {
    LinkChars();
    LinkHost();
    LinkIsNoTag();
    EscapedIsPlain(title);
    var esc := Escape(title);
    assert ':' !in TITLE_OPEN && ':' !in TITLE_CLOSE && TITLE_OPEN[|TITLE_OPEN| - 1] == '>' && TITLE_CLOSE[0] == '<';
    hide Escape, Free;
    FreeWithout(TITLE_OPEN, LINK_PREFIX, 11);
    FreeWithout(TITLE_CLOSE, LINK_PREFIX, 11);
    FreeWithout(esc, LINK_PREFIX, 5);
    FreeConcat(esc, TITLE_CLOSE, LINK_PREFIX);
    FreeConcat(TITLE_OPEN, esc + TITLE_CLOSE, LINK_PREFIX);
  }

  /** One more character that a pattern does not begin with makes no occurrence. */
  lemma FreeAfter(c: char, s: string, pat: string)
    requires pat != [] && pat[0] != c && Free(s, pat)
    ensures Free([c] + s, pat)
  {
    forall i: nat ensures !OccursAt([c] + s, pat, i) {
      if i == 0 {
        NotHere([c] + s, pat, 0, 0);
      } else if OccursAt([c] + s, pat, i) {
        ShiftOccurrence([c], s, pat, i);
      }
    }
  }

  lemma BodyIsFree(t: Team)
    requires Good(t)
    ensures Free(Body(t), LINK_PREFIX) && Free(Opened(t), "<h3")
  {
    LinkChars();
    LinkIsNoTag();
    FreeAfter('"', t.mid, LINK_PREFIX);
    FreeAfter('"', t.mid, "<h3");
    HeadingIsFree(t.title);
    assert Heading(t.title)[0] == '<';
    hide Escape, Free, Heading;
    FreeConcat(Opened(t), Heading(t.title), LINK_PREFIX);
  }

  // ---------- one anchor ----------

  /** A body shows the title after any text without a heading. */
  lemma TitleRead(pre: string, title: string, gap: string)
    requires Free(pre, "<h3") && Trimmed(title)
    ensures TitleIn(pre + Heading(title) + gap) == Some(title)
  {
    EscapedIsPlain(title);
    ShownRead(pre, Escape(title), gap);
    TrimmedFixed(Escape(title));
    DecodeEscape(title);
    hide Decode, Trim, TitleIn, HeadingOf, Escape;
  }

  lemma ShownRead(pre: string, shown: string, gap: string)
    requires Free(pre, "<h3") && '<' !in shown
    ensures TitleIn(pre + HeadingOf(shown) + gap) == Some(Decode(Trim(shown)))
  {
    TitleOpens(pre, shown, gap);
    TitleCloses(shown, gap);
    HeadingSlices(pre, shown, gap);
    hide HeadingOf, FindFrom, Decode, Trim;
  }

  /** What is shown: the title, each character written in any way, with any
      white space around it. */
  ghost predicate Shown(shown: string, pre: string, pieces: seq<string>, post: string, title: string) {
    && shown == pre + Joined(pieces) + post && Blanks(pre) && Blanks(post) && Trimmed(Joined(pieces)) && '<' !in shown
    && |pieces| == |title| && forall i | 0 <= i < |title| :: Writes(pieces[i], title[i])
  }

  /** An anchor is listed under the title its heading shows, unless that or the
      slug is empty. The white space around it is cut off before the entities are
      read, so written white space stays. */
  lemma EmitExactly(slug: string, before: string, shown: string, pre: string, pieces: seq<string>, post: string, title: string, gap: string)
    requires Free(before, "<h3") && Shown(shown, pre, pieces, post, title)
    ensures Emit(slug, before + HeadingOf(shown) + gap) == if slug == "" || title == "" then [] else [(slug, title)]
  {
    ShownRead(before, shown, gap);
    TrimPadded(pre, Joined(pieces), post);
    DecodeUndoes(pieces, title);
    hide TitleIn, HeadingOf, Decode, Trim, Free, Shown;
  }

  lemma HeadingSlices(pre: string, shown: string, gap: string)
    ensures |pre| + |TITLE_OPEN| <= |pre + HeadingOf(shown) + gap|
    ensures (pre + HeadingOf(shown) + gap)[|pre| + |TITLE_OPEN|..] == shown + TITLE_CLOSE + gap
    ensures (shown + TITLE_CLOSE + gap)[..|shown|] == shown
  {
  }

  lemma TitleOpens(pre: string, shown: string, gap: string)
    requires Free(pre, "<h3")
    ensures FindFrom(pre + HeadingOf(shown) + gap, TITLE_OPEN, 0) == Some(|pre|)
  {
    hide FindFrom;
    var b := HeadingOf(shown) + gap;
    var s := pre + b;
    assert s == pre + HeadingOf(shown) + gap;
    assert s[|pre|..|pre| + |TITLE_OPEN|] == TITLE_OPEN;
    forall j | 0 <= j < |pre| ensures !OccursAt(s, TITLE_OPEN, j) {
      if OccursAt(s, TITLE_OPEN, j) {
        HeadingStarts(s, j);
        SplitOccurrence(pre, b, "<h3", j);
      }
    }
    FirstAt(s, TITLE_OPEN, |pre|);
  }

  lemma HeadingStarts(s: string, j: nat)
    requires OccursAt(s, TITLE_OPEN, j)
    ensures OccursAt(s, "<h3", j)
  {
    var open := s[j..j + |TITLE_OPEN|];
    assert open[0] == '<' && open[1] == 'h' && open[2] == '3';
    assert s[j] == open[0] && s[j + 1] == open[1] && s[j + 2] == open[2];
  }

  lemma TitleCloses(shown: string, gap: string)
    requires '<' !in shown
    ensures FindFrom(shown + TITLE_CLOSE + gap, TITLE_CLOSE, 0) == Some(|shown|)
  {
    var s := shown + TITLE_CLOSE + gap;
    hide FindFrom;
    forall j | 0 <= j < |shown| ensures !OccursAt(s, TITLE_CLOSE, j) {
      assert s[j] == shown[j];
      NotHere(s, TITLE_CLOSE, j, 0);
    }
    assert s[|shown|..|shown| + |TITLE_CLOSE|] == TITLE_CLOSE;
    FirstAt(s, TITLE_CLOSE, |shown|);
  }

  lemma SlugEnds(slug: string, rest: string)
    requires '"' !in slug && rest != [] && rest[0] == '"'
    ensures FindFrom(slug + rest, "\"", 0) == Some(|slug|)
  {
    var s := slug + rest;
    hide FindFrom;
    forall j | 0 <= j < |slug| ensures !OccursAt(s, "\"", j) {
      assert s[j..j + 1] == [slug[j]];
    }
    assert s[|slug|..|slug| + 1] == "\"";
    FirstAt(s, "\"", |slug|);
  }

  /** Scanning one anchor, after any gap: its pair, then the text from the next link on. */
  lemma AnchorRead(x: string, t: Team, gap: string, more: string)
    requires Good(t) && Free(x, LINK_PREFIX)
    requires NextLink(Body(t) + (gap + more)) == |Body(t)| + |gap|
    ensures Listing(x + (Anchor(t) + (gap + more))) == [(t.slug, t.title)] + Listing(more)
  {
    EmitRead(t, gap);
    hide Good, Free, Body, Anchor, Step, Listing, Emit, NextLink, TurnOf;
    assert Body(t) + (gap + more) == (Body(t) + gap) + more;
    TurnIs(t.slug, Body(t) + gap, more);
    AnchorStep(x, t, gap + more);
    ListingStep(x + (Anchor(t) + (gap + more)), Turn(t.slug, Body(t) + gap, more));
  }

  lemma TurnIs(slug: string, body: string, more: string)
    requires NextLink(body + more) == |body|
    ensures TurnOf(slug, body + more) == Turn(slug, body, more)
  {
    hide NextLink;
    assert (body + more)[..|body|] == body && (body + more)[|body|..] == more;
  }

  lemma EmitRead(t: Team, gap: string)
    requires Good(t)
    ensures Emit(t.slug, Body(t) + gap) == [(t.slug, t.title)]
  {
    BodyIsFree(t);
    TitleRead(Opened(t), t.title, gap);
    hide TitleIn, Heading;
  }

  lemma AnchorStep(x: string, t: Team, tail: string)
    requires Good(t) && Free(x, LINK_PREFIX)
    ensures Step(x + (Anchor(t) + tail)) == Some(TurnOf(t.slug, Body(t) + tail))
  {
    var rest := Body(t) + tail;
    assert rest[0] == '"';
    SlugEnds(t.slug, rest);
    AnchorParts(t, tail);
    hide FindFrom, Free, Body, Step, TurnOf, OccursAt, Anchor, Good;
    FirstLink(x, t.slug + rest);
    StepReads(x, t.slug, rest);
  }

  lemma AnchorParts(t: Team, tail: string)
    ensures Anchor(t) + tail == LINK_PREFIX + (t.slug + (Body(t) + tail))
  {
    hide Body;
    Associative(LINK_PREFIX, t.slug, Body(t), tail);
  }

  lemma Associative(a: string, b: string, c: string, d: string)
    ensures (a + (b + c)) + d == a + (b + (c + d))
  {
  }

  lemma Slices(x: string, pat: string, after: string)
    ensures (x + (pat + after))[|x|..|x| + |pat|] == pat && (x + (pat + after))[|x| + |pat|..] == after
  {
  }

  /** One turn of the scan. */
  lemma StepReads(x: string, slug: string, rest: string)
    requires FindFrom(x + (LINK_PREFIX + (slug + rest)), LINK_PREFIX, 0) == Some(|x|)
    requires FindFrom(slug + rest, "\"", 0) == Some(|slug|)
    ensures Step(x + (LINK_PREFIX + (slug + rest))) == Some(TurnOf(slug, rest))
  {
    hide FindFrom, NextLink, OccursAt, TurnOf;
    TurnReads(slug, rest);
    hide TurnAt;
    Slices(x, LINK_PREFIX, slug + rest);
  }

  lemma TurnReads(slug: string, rest: string)
    requires FindFrom(slug + rest, "\"", 0) == Some(|slug|)
    ensures TurnAt(slug + rest) == Some(TurnOf(slug, rest))
  {
    hide FindFrom, OccursAt, TurnOf;
    var after := slug + rest;
    assert after[..|slug|] == slug && after[|slug|..] == rest;
  }

  lemma NextIs(t: Team, gap: string, more: string)
    requires Good(t) && Free(gap, LINK_PREFIX) && (more == [] || LINK_PREFIX <= more)
    ensures NextLink(Body(t) + (gap + more)) == |Body(t)| + |gap|
  {
    var x := Body(t) + gap;
    BodyIsFree(t);
    BodyEnds(t);
    LinkIsNoTag();
    FreeConcat(Body(t), gap, LINK_PREFIX);
    assert Body(t) + (gap + more) == x + more;
    hide FindFrom, Body, Free, Good;
    if more == [] {
      assert x + more == x;
      NoneFound(x);
    } else {
      var later := more[|LINK_PREFIX|..];
      assert more == LINK_PREFIX + later;
      FirstLink(x, later);
    }
  }

  lemma BodyEnds(t: Team)
    ensures Body(t) != [] && Body(t)[|Body(t)| - 1] == '>'
  {
    hide Escape;
  }

  lemma NoneFound(x: string)
    requires Free(x, LINK_PREFIX)
    ensures NextLink(x) == |x|
  {
  }

  // ---------- the whole page ----------

  function Pairs(teams: seq<Team>): seq<(string, string)> {
    seq(|teams|, i requires 0 <= i < |teams| => (teams[i].slug, teams[i].title))
  }

  lemma {:induction false} AnchorsRead(x: string, t: Team, teams: seq<Team>, trailer: string)
    requires Good(t) && (forall i | 0 <= i < |teams| :: Good(teams[i]))
    requires Free(x, LINK_PREFIX) && Free(trailer, LINK_PREFIX)
    ensures Listing(x + (Anchor(t) + Render(teams, trailer))) == [(t.slug, t.title)] + Pairs(teams)
    decreases |teams|
  {
    hide Listing, Body, Good, Free, NextLink;
    if teams == [] {
      assert trailer + [] == trailer;
      NextIs(t, trailer, []);
      AnchorRead(x, t, trailer, []);
      NothingListed();
    } else {
      var gap, more := teams[0].lead, Anchor(teams[0]) + Render(teams[1..], trailer);
      assert Free(gap, LINK_PREFIX) by { assert Good(teams[0]); LeadIsFree(teams[0]); }
      assert LINK_PREFIX <= more;
      NextIs(t, gap, more);
      AnchorRead(x, t, gap, more);
      FreeWithout("", LINK_PREFIX, 0);
      AnchorsRead("", teams[0], teams[1..], trailer);
      assert "" + more == more;
      assert Pairs(teams) == [(teams[0].slug, teams[0].title)] + Pairs(teams[1..]);
    }
  }

  lemma NothingListed()
    ensures Listing([]) == []
  {
    assert !OccursAt([], LINK_PREFIX, 0);
  }

  lemma LeadIsFree(t: Team)
    requires Good(t)
    ensures Free(t.lead, LINK_PREFIX)
  {
  }

  /** Reading a rendered page gives the teams back, in order. */
  lemma ListingUndoesRender(teams: seq<Team>, trailer: string)
    requires forall i | 0 <= i < |teams| :: Good(teams[i])
    requires Free(trailer, LINK_PREFIX)
    ensures Listing(Render(teams, trailer)) == Pairs(teams)
  {
    if teams == [] {
      NoLinkListed(trailer);
    } else {
      LeadIsFree(teams[0]);
      assert Pairs(teams) == [(teams[0].slug, teams[0].title)] + Pairs(teams[1..]);
      hide Good, Free, Listing, Anchor;
      AnchorsRead(teams[0].lead, teams[0], teams[1..], trailer);
    }
  }

  /** A block as the site writes it: what stands before its anchor, the slug,
      the image tag before the title, and the title. */
  datatype Block = Block(before: string, slug: string, image: string, title: string)

  const ANCHOR_OPEN := "<a class=\"teamsTeam--link\" "

  /** The documented markup of one block. */
  function Markup(b: Block): string {
    b.before + ANCHOR_OPEN + "href=\"https://stats.wftda.com/team/" + b.slug + "\">" + b.image
    + "<h3 class=\"teamsTeam--title\">" + Escape(b.title) + "</h3>"
  }

  function Page(blocks: seq<Block>, trailer: string): string {
    if blocks == [] then trailer else Markup(blocks[0]) + Page(blocks[1..], trailer)
  }

  function TeamOf(b: Block): Team { Team(b.before + ANCHOR_OPEN, b.slug, ">" + b.image, b.title) }

  ghost predicate GoodBlock(b: Block) {
    && Free(b.before, LINK_PREFIX) && Free(b.image, LINK_PREFIX) && Free(b.image, "<h3")
    && b.slug != [] && '"' !in b.slug && b.title != [] && Trimmed(b.title)
  }

  lemma BlockIsGood(b: Block)
    requires GoodBlock(b)
    ensures Good(TeamOf(b))
  {
    LinkChars();
    LinkHost();
    LinkIsNoTag();
    FreeWithout(ANCHOR_OPEN, LINK_PREFIX, 11);
    assert ANCHOR_OPEN[0] == '<';
    FreeConcat(b.before, ANCHOR_OPEN, LINK_PREFIX);
    FreeAfter('>', b.image, LINK_PREFIX);
    FreeAfter('>', b.image, "<h3");
  }

  lemma MarkupIs(b: Block, rest: string)
    ensures Markup(b) + rest == TeamOf(b).lead + (Anchor(TeamOf(b)) + rest)
  {
    hide Escape;
    var title := TITLE_OPEN + (Escape(b.title) + TITLE_CLOSE);
    assert "\">" + b.image == "\"" + (">" + b.image);
    NineParts(b.before, ANCHOR_OPEN, LINK_PREFIX, b.slug, "\">", b.image, TITLE_OPEN, Escape(b.title), TITLE_CLOSE, rest);
  }

  lemma NineParts(a: string, b: string, c: string, d: string, e: string, f: string, g: string, h: string, i: string, rest: string)
    ensures (a + b + c + d + e + f + g + h + i) + rest == (a + b) + ((c + (d + ((e + f) + (g + (h + i))))) + rest)
  {
  }

  function Teams(blocks: seq<Block>): seq<Team> {
    if blocks == [] then [] else [TeamOf(blocks[0])] + Teams(blocks[1..])
  }

  lemma {:induction false} PageIsRendered(blocks: seq<Block>, trailer: string)
    ensures Page(blocks, trailer) == Render(Teams(blocks), trailer)
  {
    hide Markup, Anchor, TeamOf;
    if blocks != [] {
      PageIsRendered(blocks[1..], trailer);
      assert Teams(blocks)[1..] == Teams(blocks[1..]);
      MarkupIs(blocks[0], Page(blocks[1..], trailer));
    }
  }

  /** What the blocks show. */
  function Listed(blocks: seq<Block>): seq<(string, string)> {
    seq(|blocks|, i requires 0 <= i < |blocks| => (blocks[i].slug, blocks[i].title))
  }

  /** So does reading a page in the documented markup. */
  lemma PageIsRead(blocks: seq<Block>, trailer: string)
    requires forall i | 0 <= i < |blocks| :: GoodBlock(blocks[i])
    requires Free(trailer, LINK_PREFIX)
    ensures Listing(Page(blocks, trailer)) == Listed(blocks)
  {
    hide Listing, Page, Render, Free, Good, GoodBlock, Listed, Pairs;
    AllGood(blocks);
    PageIsRendered(blocks, trailer);
    ListingUndoesRender(Teams(blocks), trailer);
  }

  lemma {:induction false} AllGood(blocks: seq<Block>)
    requires forall i | 0 <= i < |blocks| :: GoodBlock(blocks[i])
    ensures |Teams(blocks)| == |blocks| && forall i | 0 <= i < |blocks| :: Good(Teams(blocks)[i])
    ensures Pairs(Teams(blocks)) == Listed(blocks)
  {
    hide Good, GoodBlock;
    if blocks != [] {
      AllGood(blocks[1..]);
      BlockIsGood(blocks[0]);
      assert Pairs(Teams(blocks)) == [(blocks[0].slug, blocks[0].title)] + Pairs(Teams(blocks[1..]));
    }
  }

  lemma NoLinkListed(text: string)
    requires Free(text, LINK_PREFIX)
    ensures Listing(text) == []
  {
  }

  // ---------- arbitrary pages ----------

  /** Where the body of an anchor ends, counted from its slug on. */
  function BodyEnd(after: string, quote: nat): nat
    requires quote <= |after|
  {
    quote + NextLink(after[quote..])
  }

  lemma SuffixOccurrence(s: string, pat: string, from: nat, j: nat)
    requires from <= |s|
    ensures OccursAt(s[from..], pat, j) <==> OccursAt(s, pat, from + j)
  {
    if j + |pat| <= |s| - from { assert s[from..][j..j + |pat|] == s[from + j..from + j + |pat|]; }
  }

  /** An anchor's body stops at the next link exactly when the slug is closed
      before it; otherwise the slug is closed by that link's own quote and the
      link is passed over. */
  lemma BodyStopsAtNextLink(after: string, quote: nat)
    requires FindFrom(after, "\"", 0) == Some(quote)
    ensures BodyEnd(after, quote) == NextLink(after) <==> quote < NextLink(after)
    ensures quote >= NextLink(after) ==> quote == NextLink(after) + 5 && BodyEnd(after, quote) > NextLink(after)
  {
    var next := NextLink(after);
    assert after[quote..quote + 1] == "\"";
    if quote < next {
      NextFromSuffix(after, quote);
    } else {
      QuoteOfLink(after, next, quote);
    }
  }

  lemma QuoteOfLink(after: string, next: nat, quote: nat)
    requires OccursAt(after, LINK_PREFIX, next) && next <= quote
    requires FindFrom(after, "\"", 0) == Some(quote)
    ensures quote == next + 5
  {
    LinkChars();
    forall j: nat | next <= j < next + 6 ensures OccursAt(after, "\"", j) <==> j == next + 5 {
      assert after[next..next + |LINK_PREFIX|][j - next] == after[j] && after[j..j + 1] == [after[j]];
    }
    assert OccursAt(after, "\"", next + 5) && OccursAt(after, "\"", quote);
  }

  lemma NextFromSuffix(s: string, from: nat)
    requires from < NextLink(s)
    ensures NextLink(s[from..]) == NextLink(s) - from
  {
    var next := NextLink(s);
    hide FindFrom;
    forall j: nat | j < next - from ensures !OccursAt(s[from..], LINK_PREFIX, j) {
      SuffixOccurrence(s, LINK_PREFIX, from, j);
    }
    if FindFrom(s, LINK_PREFIX, 0).Some? {
      SuffixOccurrence(s, LINK_PREFIX, from, next - from);
      FirstAt(s[from..], LINK_PREFIX, next - from);
    } else {
      forall j: nat ensures !OccursAt(s[from..], LINK_PREFIX, j) {
        SuffixOccurrence(s, LINK_PREFIX, from, j);
      }
    }
  }

  /** What the scan is meant to find: each link with a title of its own, looked
      for between it and the next link. */
  function OwnTitles(text: string): seq<(string, string)>
    decreases |text|
  {
    match FindFrom(text, LINK_PREFIX, 0)
    case None => []
    case Some(start) =>
      var after := text[start + |LINK_PREFIX|..];
      OwnTitle(after[..NextLink(after)]) + OwnTitles(after[NextLink(after)..])
  }

  function OwnTitle(segment: string): seq<(string, string)> {
    match FindFrom(segment, "\"", 0)
    case None => []
    case Some(quote) => Emit(segment[..quote], segment[quote..])
  }

  /** Every slug is closed before the next link. */
  predicate Closed(text: string)
    decreases |text|
  {
    match FindFrom(text, LINK_PREFIX, 0)
    case None => true
    case Some(start) =>
      var after := text[start + |LINK_PREFIX|..];
      FindFrom(after[..NextLink(after)], "\"", 0).Some? && Closed(after[NextLink(after)..])
  }

  lemma ClosedTurn(after: string)
    requires FindFrom(after[..NextLink(after)], "\"", 0).Some?
    ensures TurnAt(after).Some?
    ensures var turn := TurnAt(after).value;
      turn.next == after[NextLink(after)..] && Emit(turn.slug, turn.body) == OwnTitle(after[..NextLink(after)])
  {
    var n := NextLink(after);
    var quote := FindFrom(after[..n], "\"", 0).value;
    QuoteInPrefix(after, n, quote);
    hide NextLink, Emit, OccursAt, FindFrom, TurnOf;
    ClosedBody(after, quote);
    PrefixSlices(after, n, quote);
  }

  /** The slug closed, the body runs to the next link. */
  lemma ClosedBody(after: string, quote: nat)
    requires quote < NextLink(after)
    ensures TurnOf(after[..quote], after[quote..])
         == Turn(after[..quote], after[quote..NextLink(after)], after[NextLink(after)..])
  {
    NextFromSuffix(after, quote);
    hide NextLink;
    SuffixSlices(after, NextLink(after), quote);
  }

  lemma SuffixSlices(s: string, n: nat, k: nat)
    requires k <= n <= |s|
    ensures s[k..][..n - k] == s[k..n] && s[k..][n - k..] == s[n..]
  {
  }

  lemma PrefixSlices(s: string, n: nat, k: nat)
    requires k <= n <= |s|
    ensures s[..n][..k] == s[..k] && s[..n][k..] == s[k..n]
  {
  }

  lemma QuoteInPrefix(after: string, n: nat, quote: nat)
    requires n <= |after| && FindFrom(after[..n], "\"", 0) == Some(quote)
    ensures quote < n && FindFrom(after, "\"", 0) == Some(quote)
  {
    forall j: nat | j < n ensures OccursAt(after, "\"", j) <==> OccursAt(after[..n], "\"", j) {
      QuoteHere(after, n, j);
      hide OccursAt, FindFrom;
    }
    hide FindFrom, OccursAt;
    assert quote < n by { OneChar(after[..n], quote); }
    FirstAt(after, "\"", quote);
  }

  lemma QuoteHere(s: string, n: nat, j: nat)
    requires j < n <= |s|
    ensures OccursAt(s, "\"", j) <==> OccursAt(s[..n], "\"", j)
  {
    assert s[..n][j..j + 1] == s[j..j + 1];
  }

  lemma OneChar(s: string, i: nat)
    requires OccursAt(s, "\"", i)
    ensures i < |s|
  {
  }

  /** On any page whose slugs are all closed, each slug gets its own title or none. */
  lemma {:induction false} ListingIsOwnTitles(text: string)
    requires Closed(text)
    ensures Listing(text) == OwnTitles(text)
    decreases |text|
  {
    hide NextLink, OwnTitle, Emit, TurnAt;
    match FindFrom(text, LINK_PREFIX, 0)
    case None =>
    case Some(start) =>
      var after := text[start + |LINK_PREFIX|..];
      ClosedTurn(after);
      ListingIsOwnTitles(after[NextLink(after)..]);
  }

  const HOST := "https://stats.wftda.com/team/"

  /** What is left of a link after its `href=`, with the slug. */
  function Cut(t: Team): string { "\"" + (HOST + t.slug) }

  lemma LinkSplits(t: Team)
    ensures Anchor(t) == "href=" + (Cut(t) + Body(t))
  {
    LinkParts();
    hide Body;
    Regroup("href=", "\"", HOST, t.slug, Body(t));
  }

  lemma LinkParts()
    ensures LINK_PREFIX == "href=" + ("\"" + HOST)
  {
  }

  lemma Regroup(a: string, b: string, c: string, d: string, e: string)
    ensures (a + (b + c)) + (d + e) == a + ((b + (c + d)) + e)
  {
  }

  /** Neither a link nor a heading begins in what is left of a link. */
  lemma CutIsFree(t: Team)
    requires Good(t) && Free(t.slug + Opened(t), LINK_PREFIX) && Free(t.slug + Opened(t), "<h3")
    ensures Free(Cut(t) + Body(t), LINK_PREFIX) && Free(Cut(t) + Opened(t), "<h3")
  {
    hide Free, Opened, Heading;
    var x := t.slug + Opened(t);
    CutParts(t);
    HeadingIsFree(t.title);
    HeadingOpens(t.title);
    LinkIsNoTag();
    FreeConcat(x, Heading(t.title), LINK_PREFIX);
    HostIsFree(x + Heading(t.title));
    HostHasNoHeading(x);
  }

  lemma HeadingOpens(title: string)
    ensures Heading(title) != [] && Heading(title)[0] == '<'
  {
    hide Escape;
  }

  lemma CutParts(t: Team)
    ensures Cut(t) + Opened(t) == ("\"" + HOST) + (t.slug + Opened(t))
    ensures Cut(t) + Body(t) == ("\"" + HOST) + ((t.slug + Opened(t)) + Heading(t.title))
  {
    hide Opened, Heading;
    Halves("\"", HOST, t.slug, Opened(t), Heading(t.title));
  }

  lemma Halves(a: string, b: string, c: string, d: string, e: string)
    ensures (a + (b + c)) + d == (a + b) + (c + d)
    ensures (a + (b + c)) + (d + e) == (a + b) + ((c + d) + e)
  {
  }

  lemma HostIsFree(x: string)
    requires Free(x, LINK_PREFIX)
    ensures Free(("\"" + HOST) + x, LINK_PREFIX)
  {
    var host := "\"" + HOST;
    LinkChars();
    assert host[2] == 't' && forall i | 0 <= i < |host| && i != 1 :: host[i] != 'h';
    forall i: nat ensures !OccursAt(host + x, LINK_PREFIX, i) {
      if i < |host| {
        NotHere(host + x, LINK_PREFIX, i, if i == 1 then 1 else 0);
      } else if OccursAt(host + x, LINK_PREFIX, i) {
        ShiftOccurrence(host, x, LINK_PREFIX, i);
      }
    }
  }

  lemma HostHasNoHeading(x: string)
    requires Free(x, "<h3")
    ensures Free(("\"" + HOST) + x, "<h3")
  {
    var host := "\"" + HOST;
    FreeWithout(host, "<h3", 0);
    assert host[|host| - 1] == '/';
    FreeConcat(host, x, "<h3");
  }

  /** A slug that is not closed borrows the next team's title, and that team is lost. */
  lemma OpenSlugBorrows(slug: string, t: Team)
    requires '"' !in slug && Good(t) && Free(t.slug + Opened(t), LINK_PREFIX) && Free(t.slug + Opened(t), "<h3")
    ensures Listing(LINK_PREFIX + (slug + Anchor(t))) == [(slug + "href=", t.title)]
  {
    var read := slug + "href=";
    hide Anchor, Listing, Cut, Body, Step, Free, Emit, Opened;
    OpenText(slug, t);
    CutIsFree(t);
    CutEmits(read, t);
    CutStarts(t);
    SlugEnds(read, Cut(t) + Body(t));
    BorrowStep(read, Cut(t) + Body(t));
  }

  lemma CutStarts(t: Team)
    ensures Cut(t) != [] && (Cut(t) + Body(t))[0] == '"'
  {
    hide Body;
  }

  lemma OpenText(slug: string, t: Team)
    ensures slug + Anchor(t) == (slug + "href=") + (Cut(t) + Body(t))
  {
    hide Anchor, Cut, Body;
    LinkSplits(t);
  }

  lemma CutEmits(read: string, t: Team)
    requires Good(t) && Free(Cut(t) + Opened(t), "<h3") && read != []
    ensures Emit(read, Cut(t) + Body(t)) == [(read, t.title)]
  {
    hide Cut, Opened, Heading, Free, TitleIn;
    TitleRead(Cut(t) + Opened(t), t.title, "");
    assert Cut(t) + Opened(t) + Heading(t.title) + "" == Cut(t) + Body(t);
  }

  lemma BorrowStep(read: string, rest: string)
    requires FindFrom(read + rest, "\"", 0) == Some(|read|) && Free(rest, LINK_PREFIX)
    ensures Listing(LINK_PREFIX + (read + rest)) == Emit(read, rest)
  {
    NoneFound(rest);
    assert rest[..|rest|] == rest && rest[|rest|..] == [];
    hide Free, NextLink, Emit, Step, Listing;
    FreeWithout("", LINK_PREFIX, 0);
    FirstLink("", read + rest);
    StepReads("", read, rest);
    assert "" + (LINK_PREFIX + (read + rest)) == LINK_PREFIX + (read + rest);
    ListingStep(LINK_PREFIX + (read + rest), Turn(read, rest, []));
    NothingListed();
  }
}
