/**
 * The in-memory video collection behind the /videos routes, and the
 * handlers that read and change it. The module-level `videos` array of the
 * server is the `videos` field of a `Store`; each handler is a method that
 * returns the HTTP outcome as a `Response`.
 */
module VideoStore {
  import opened Wrappers
  import opened JsText
  import opened Validation

  /** One stored record. Only the fields the handlers write are modelled. */
  datatype Video = Video(id: nat, title: string, author: string)

  /** The author every created record gets, whatever the request says. */
  const CreatedAuthor: string := "it-incubator.eu"

  /** What a handler answers: the status code and the body that goes with it. */
  datatype Response =
    | Ok(video: Video)                             // 200, the record
    | Listed(videos: seq<Video>)                   // 200, the whole collection
    | Created(video: Video)                        // 201, the new record
    | NoContent                                    // 204
    | BadRequest(errorsMessages: seq<FieldError>)  // 400, { errorsMessages }
    | NotFound                                     // 404
  {
    function Status(): nat {
      match this
      case Ok(_) => 200
      case Listed(_) => 200
      case Created(_) => 201
      case NoContent => 204
      case BadRequest(_) => 400
      case NotFound => 404
    }
  }

  /** The route parameter `param` names the record with this id: the id's
      `toString()` is exactly the parameter text. */
  predicate IdMatches(id: nat, param: string) {
    DecimalString(id) == param
  }

  /** Record `i` is the first one `param` names. */
  predicate IsFirstMatch(vs: seq<Video>, i: nat, param: string) {
    i < |vs| && IdMatches(vs[i].id, param)
    && forall j :: 0 <= j < i ==> !IdMatches(vs[j].id, param)
  }

  /** No record is named by `param`. */
  predicate NoMatch(vs: seq<Video>, param: string) {
    forall j :: 0 <= j < |vs| ==> !IdMatches(vs[j].id, param)
  }

  /** The position `find` and `findIndex` stop at: the first record `param`
      names, or None (`findIndex` answers -1) when there is none. */
  function FindFirst(vs: seq<Video>, param: string): (r: Option<nat>)
    ensures r.Some? ==> IsFirstMatch(vs, r.value, param)
    ensures r.None? <==> NoMatch(vs, param)
  {
    if vs == [] then None
    else if IdMatches(vs[0].id, param) then Some(0)
    else match FindFirst(vs[1..], param)
      case None => None
      case Some(k) => Some(k + 1)
  }

  /** The five fixtures the server starts with. */
  function Seed(): seq<Video> {
    [ Video(1, "About JS - 01", "1.eu"),
      Video(2, "About JS - 02", "2.eu"),
      Video(3, "About JS - 03", "3.eu"),
      Video(4, "About JS - 04", "4.eu"),
      Video(5, "About JS - 05", "5.eu") ]
  }

  /** Every stored title passes the title check. */
  predicate AllTitlesValid(vs: seq<Video>) {
    forall v :: v in vs ==> IsValidTitle(v.title)
  }

  /** No two records share an id. The server does not enforce this: created
      ids come from the clock. */
  predicate UniqueIds(vs: seq<Video>) {
    forall i, j :: 0 <= i < j < |vs| ==> vs[i].id != vs[j].id
  }

  /** The seed holds five records with ids 1 to 5 in order, distinct, each
      with a valid title, and "1" to "5" name them. */
  lemma SeedFacts()
    ensures |Seed()| == 5
    ensures forall i :: 0 <= i < 5 ==> Seed()[i].id == i + 1
    ensures UniqueIds(Seed()) && AllTitlesValid(Seed())
    ensures FindFirst(Seed(), "3") == Some(2)
  {
    var s := Seed();
    forall i | 0 <= i < 5 ensures IsValidTitle(s[i].title) {
      assert s[i].title[0] == 'A' && !IsJsWhitespace('A');
    }
    assert IdMatches(3, "3");
    assert !IdMatches(1, "3") && !IdMatches(2, "3");
  }

  /** A well-formed parameter names at most one id: if two records match the
      same parameter, their ids are equal. */
  lemma IdMatchesFunctional(a: nat, b: nat, param: string)
    requires IdMatches(a, param) && IdMatches(b, param)
    ensures a == b
  {
    DecimalStringInjective(a, b);
  }

  /** The parameter names id `id` exactly when it is canonical decimal text for
      `id`; a leading zero ("01"), a sign or a fraction never matches. */
  lemma IdMatchesIff(id: nat, param: string)
    ensures IdMatches(id, param) <==> IsCanonicalDecimal(param) && ParseDecimal(param) == id
  {
    DecimalStringIff(id, param);
  }

  /** "01" does not name id 1 although both read as one. */
  lemma LeadingZeroDoesNotMatch()
    ensures !IdMatches(1, "01")
  {
  }

  /** With distinct ids, once the first match is removed nothing else matches:
      a later get-by-id with the same parameter answers 404. */
  lemma {:induction false} RemoveFirstMatchLeavesNone(vs: seq<Video>, i: nat, param: string)
    requires UniqueIds(vs) && IsFirstMatch(vs, i, param)
    ensures NoMatch(vs[..i] + vs[i + 1..], param)
  {
    var rest := vs[..i] + vs[i + 1..];
    forall j | 0 <= j < |rest| ensures !IdMatches(rest[j].id, param) {
      if j >= i {
        assert rest[j] == vs[j + 1];
        if IdMatches(vs[j + 1].id, param) {
          IdMatchesFunctional(vs[i].id, vs[j + 1].id, param);
          assert false;
        }
      }
    }
  }

  /** Without distinct ids the property above fails: two records with id 7,
      delete "7" removes the first, and the second still matches. */
  lemma DuplicateSurvivesRemoval()
    ensures var vs := [Video(7, "a", CreatedAuthor), Video(7, "b", CreatedAuthor)];
            IsFirstMatch(vs, 0, "7") && FindFirst(vs[..0] + vs[1..], "7") == Some(0)
  {
  }

  /** A record appended under a fresh id is what get-by-id then finds for that
      id's rendering: it is the first (and only) match, at the end. */
  lemma {:induction false} AppendedIsFound(vs: seq<Video>, v: Video)
    requires forall j :: 0 <= j < |vs| ==> vs[j].id != v.id
    ensures FindFirst(vs + [v], DecimalString(v.id)) == Some(|vs|)
  {
    var ws := vs + [v];
    var p := DecimalString(v.id);
    forall j | 0 <= j < |vs| ensures !IdMatches(ws[j].id, p) {
      assert ws[j] == vs[j];
      DecimalStringInjective(vs[j].id, v.id);
    }
    assert IsFirstMatch(ws, |vs|, p);
  }

  /** Changing a title leaves every lookup where it was: the same parameter
      finds the same position before and after. */
  lemma WithTitleKeepsLookup(vs: seq<Video>, i: nat, title: string, param: string)
    requires i < |vs|
    ensures FindFirst(vs[i := vs[i].(title := title)], param) == FindFirst(vs, param)
  {
    var ws := vs[i := vs[i].(title := title)];
    assert forall j :: 0 <= j < |vs| ==> ws[j].id == vs[j].id;
    match FindFirst(vs, param)
    case Some(k) =>
      assert IsFirstMatch(ws, k, param);
    case None =>
      assert NoMatch(ws, param);
  }

  /** Appending keeps the ids distinct exactly when the new id is fresh. */
  lemma AppendKeepsUniqueIds(vs: seq<Video>, v: Video)
    requires UniqueIds(vs)
    ensures UniqueIds(vs + [v]) <==> forall j :: 0 <= j < |vs| ==> vs[j].id != v.id
  {
    if forall j :: 0 <= j < |vs| ==> vs[j].id != v.id {
      var ws := vs + [v];
      forall a, b | 0 <= a < b < |ws| ensures ws[a].id != ws[b].id {
        if b == |vs| { assert ws[a] == vs[a]; }
      }
    } else {
      var j :| 0 <= j < |vs| && vs[j].id == v.id;
      assert (vs + [v])[j] == vs[j] && (vs + [v])[|vs|] == v;
    }
  }

  class Store {
    /** The collection, in insertion order. Every method keeps
        `AllTitlesValid(videos)`: a stored title always passes the title check. */
    var videos: seq<Video>

    /** The collection as the server starts: the five fixtures. */
    constructor ()
      ensures AllTitlesValid(videos) && videos == Seed()
    {
      videos := Seed();
      SeedFacts();
    }

    /** GET /videos: the whole collection, in insertion order, with status 200. */
    method List() returns (r: Response)
      ensures r.Status() == 200 && r == Listed(videos)
    {
      r := Listed(videos);
    }

    /** GET /videos/:videoId: the first record `param` names, or 404. */
    method GetById(param: string) returns (r: Response)
      ensures r.Ok? || r.NotFound?
      ensures r.NotFound? <==> NoMatch(videos, param)
      ensures r.Ok? ==> exists i: nat :: IsFirstMatch(videos, i, param) && r.video == videos[i]
    {
      match FindFirst(videos, param)
      case Some(i) =>
        r := Ok(videos[i]);
      case None =>
        r := NotFound;
    }

    /** POST /videos: check the title; if it passes, append a record with the
        given id (the server takes it from the clock), that title and the fixed
        author, and answer 201 with that record. A failing title gives 400 with
        the one error and leaves the collection as it was. */
    method Create(title: Option<string>, id: nat) returns (r: Response)
      modifies this
      ensures old(AllTitlesValid(videos)) ==> AllTitlesValid(videos)
      ensures ValidateTitle(title).Some? ==>
        r == BadRequest([ValidateTitle(title).value]) && videos == old(videos)
      ensures ValidateTitle(title).None? ==>
        r == Created(Video(id, title.value, CreatedAuthor))
        && videos == old(videos) + [r.video]
    {
      match ValidateTitle(title)
      case Some(e) =>
        r := BadRequest([e]);
      case None =>
        var video := Video(id, title.value, CreatedAuthor);
        videos := videos + [video];
        r := Created(video);
    }

    /** PUT /videos/:id: the title is checked before the record is looked up,
        so a bad title gives 400 even for an unknown id. With a valid title,
        only the title of the first record `param` names changes and the answer
        is 204; when no record matches, 404 and nothing changes. */
    method Replace(param: string, title: Option<string>) returns (r: Response)
      modifies this
      ensures old(AllTitlesValid(videos)) ==> AllTitlesValid(videos)
      ensures old(UniqueIds(videos)) ==> UniqueIds(videos)
      ensures ValidateTitle(title).Some? ==>
        r == BadRequest([ValidateTitle(title).value]) && videos == old(videos)
      ensures ValidateTitle(title).None? && NoMatch(old(videos), param) ==>
        r == NotFound && videos == old(videos)
      ensures ValidateTitle(title).None? && !NoMatch(old(videos), param) ==>
        r == NoContent && |videos| == |old(videos)|
        && var i := FindFirst(old(videos), param).value;
           videos[i].title == title.value
           && videos[i].id == old(videos)[i].id
           && videos[i].author == old(videos)[i].author
           && forall j :: 0 <= j < |videos| && j != i ==> videos[j] == old(videos)[j]
    {
      var found := FindFirst(videos, param);
      match ValidateTitle(title)
      case Some(e) =>
        r := BadRequest([e]);
      case None =>
        match found
        case Some(i) =>
          videos := videos[i := videos[i].(title := title.value)];
          r := NoContent;
        case None =>
          r := NotFound;
    }

    /** DELETE /videos/:id: remove the first record `param` names, keeping the
        order of the rest, and answer 204; 404 and no change when none does. */
    method Delete(param: string) returns (r: Response)
      modifies this
      ensures old(AllTitlesValid(videos)) ==> AllTitlesValid(videos)
      ensures old(UniqueIds(videos)) ==> UniqueIds(videos)
      ensures NoMatch(old(videos), param) ==> r == NotFound && videos == old(videos)
      ensures !NoMatch(old(videos), param) ==>
        r == NoContent && |videos| == |old(videos)| - 1
        && var i := FindFirst(old(videos), param).value;
           videos == old(videos)[..i] + old(videos)[i + 1..]
    {
      match FindFirst(videos, param)
      case Some(i) =>
        RemovePreservesInvariants(videos, i);
        videos := videos[..i] + videos[i + 1..];
        r := NoContent;
      case None =>
        r := NotFound;
    }

    /** DELETE /testing/all-data: empty the collection, whatever it held; 204. */
    method ClearAll() returns (r: Response)
      modifies this
      ensures AllTitlesValid(videos) && videos == [] && r == NoContent
    {
      videos := [];
      r := NoContent;
    }
  }

  /** Giving record `i` an accepted title keeps every stored title valid and
      keeps ids distinct, since no id changes. */
  lemma WithTitlePreservesInvariants(vs: seq<Video>, i: nat, title: string)
    requires i < |vs| && IsValidTitle(title)
    ensures AllTitlesValid(vs) ==> AllTitlesValid(vs[i := vs[i].(title := title)])
    ensures UniqueIds(vs) ==> UniqueIds(vs[i := vs[i].(title := title)])
  {
  }

  /** Removal keeps ids distinct when they were, and every remaining record
      was already in the collection. */
  lemma RemovePreservesInvariants(vs: seq<Video>, i: nat)
    requires i < |vs|
    ensures UniqueIds(vs) ==> UniqueIds(vs[..i] + vs[i + 1..])
    ensures AllTitlesValid(vs) ==> AllTitlesValid(vs[..i] + vs[i + 1..])
  {
  }
}
