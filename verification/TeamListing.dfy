/** The team listing scanner (src/ingest/wftda.rs:515-551). */
module TeamListing {
  import opened Text
  import opened Entities

  const LINK_PREFIX := "href=\"https://stats.wftda.com/team/"
  const TITLE_OPEN := "<h3 class=\"teamsTeam--title\">"
  const TITLE_CLOSE := "</h3>"

  /** The title shown in an anchor body, if it has one. */
  function TitleIn(body: string): Option<string> {
    match FindFrom(body, TITLE_OPEN, 0)
    case None => None
    case Some(open) =>
      var after := body[open + |TITLE_OPEN|..];
      match FindFrom(after, TITLE_CLOSE, 0)
      case None => None
      case Some(close) => Some(Decode(Trim(after[..close])))
  }

  function Emit(slug: string, body: string): seq<(string, string)> {
    match TitleIn(body)
    case None => []
    case Some(title) => if slug != [] && title != [] then [(slug, title)] else []
  }

  /** Where the next link starts, or the end of the text. */
  function NextLink(text: string): (n: nat)
    ensures n <= |text|
  {
    match FindFrom(text, LINK_PREFIX, 0) case None => |text| case Some(n) => n
  }

  /** One anchor: its slug, its body, and the text from the next link on. */
  datatype Turn = Turn(slug: string, body: string, next: string)

  /** The anchor whose slug starts `after`. */
  function TurnAt(after: string): (turn: Option<Turn>)
    ensures turn.Some? ==> |turn.value.next| <= |after|
  {
    match FindFrom(after, "\"", 0)
    case None => None
    case Some(quote) => Some(TurnOf(after[..quote], after[quote..]))
  }

  /** The body ends at the next link after the slug's closing quote. */
  function TurnOf(slug: string, rest: string): (turn: Turn)
    ensures |turn.next| <= |rest|
  {
    Turn(slug, rest[..NextLink(rest)], rest[NextLink(rest)..])
  }

  function Step(text: string): (turn: Option<Turn>)
    ensures turn.Some? ==> |turn.value.next| < |text|
  {
    match FindFrom(text, LINK_PREFIX, 0)
    case None => None
    case Some(start) => TurnAt(text[start + |LINK_PREFIX|..])
  }

  /** The pairs found in the text from a scanning position on. */
  function Listing(text: string): seq<(string, string)>
    decreases |text|
  {
    match Step(text)
    case None => []
    case Some(turn) => Emit(turn.slug, turn.body) + Listing(turn.next)
  }

  lemma ListingStep(text: string, turn: Turn)
    requires Step(text) == Some(turn)
    ensures Listing(text) == Emit(turn.slug, turn.body) + Listing(turn.next)
  {
    hide Step, Emit;
  }

  lemma Slice(s: string, i: nat, k: nat)
    requires i + k <= |s|
    ensures s[i..][..k] == s[i..i + k] && s[i..][k..] == s[i + k..]
  {
  }

  /** A turn of the scan, in positions of the page. */
  lemma TurnAtCursor(html: string, cursor: nat, start: nat, bodyStart: nat)
    requires cursor <= start <= bodyStart - |LINK_PREFIX| && bodyStart <= |html|
    requires FindFrom(html[cursor..], LINK_PREFIX, 0) == Some(start - cursor)
    requires FindFrom(html[start + |LINK_PREFIX|..], "\"", 0) == Some(bodyStart - start - |LINK_PREFIX|)
    ensures Step(html[cursor..]) == Some(TurnOf(html[start + |LINK_PREFIX|..bodyStart], html[bodyStart..]))
  {
    hide FindFrom, TurnOf, OccursAt;
    Slice(html, cursor, start + |LINK_PREFIX| - cursor);
    Slice(html, start + |LINK_PREFIX|, bodyStart - start - |LINK_PREFIX|);
  }

  method ParseTeamListing(html: string) returns (out: seq<(string, string)>)
    ensures out == Listing(html)
  {
    hide FindFrom, Emit, NextLink, Listing, Step;
    out := [];
    var cursor := 0;
    assert html[0..] == html;
    while true
      invariant 0 <= cursor <= |html|
      invariant out + Listing(html[cursor..]) == Listing(html)
      decreases |html| - cursor
    {
      var rel := FindFrom(html[cursor..], LINK_PREFIX, 0);
      if rel.None? {
        NoTurn(html[cursor..]);
        return;
      }
      var start := cursor + rel.value;
      var after := html[start + |LINK_PREFIX|..];
      var quote := FindFrom(after, "\"", 0);
      if quote.None? {
        Slice(html, cursor, rel.value + |LINK_PREFIX|);
        NoTurn(html[cursor..]);
        return;
      }
      var slug := after[..quote.value];
      var bodyStart := start + |LINK_PREFIX| + quote.value;
      var bodyEnd := bodyStart + NextLink(html[bodyStart..]);
      var body := html[bodyStart..bodyEnd];
      TurnAtCursor(html, cursor, start, bodyStart);
      Slice(html, start + |LINK_PREFIX|, quote.value);
      Slice(html, bodyStart, bodyEnd - bodyStart);
      ListingStep(html[cursor..], Turn(slug, body, html[bodyEnd..]));
      out := out + Emit(slug, body);
      cursor := bodyEnd;
    }
  }

  lemma NoTurn(text: string)
    requires var start := FindFrom(text, LINK_PREFIX, 0);
      start.Some? ==> FindFrom(text[start.value + |LINK_PREFIX|..], "\"", 0).None?
    ensures Listing(text) == []
  {
    hide FindFrom;
  }
}
