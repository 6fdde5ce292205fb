/**
 * Cursor paging of search and list results: the token, its check, and what a client that follows the
 * tokens gets to see. A token is the JSON text inside the base64url wrapping.
 */
module CursorPaging {
  import opened Options
  import opened Utf16
  import opened NaturalNumbers
  import opened CanonicalJson

  const CURSOR_VERSION: nat := 1

  const KEY_V: Text := [0x76]
  const KEY_O: Text := [0x6F]
  const KEY_L: Text := [0x6C]
  const KEY_F: Text := [0x66]

  datatype Payload = Payload(offset: nat, limit: nat, fingerprint: Text)

  // ---- The token ----

  function TokenValue(version: nat, p: Payload): Json {
    Obj([(KEY_V, Num(NumberOf(version))), (KEY_O, Num(NumberOf(p.offset))),
         (KEY_L, Num(NumberOf(p.limit))), (KEY_F, Str(p.fingerprint))])
  }

  lemma TokenNormal(version: nat, p: Payload)
    ensures Normal(TokenValue(version, p))
  {
    NaturalRoundTrip(version);
    NaturalRoundTrip(p.offset);
    NaturalRoundTrip(p.limit);
  }

  /** encodeCursor: JSON.stringify prints the members in the order they are written. */
  ghost function EncodeCursor(p: Payload): Text { EncodeToken(CURSOR_VERSION, p) }

  /** The token of any version of the service. */
  ghost function EncodeToken(version: nat, p: Payload): Text {
    TokenNormal(version, p);
    Raw(TokenValue(version, p))
  }

  function Member(v: Json, key: Text): Option<Json> {
    if v.Obj? then FindMember(v.members, key) else None
  }

  /** Of members with equal keys JSON.parse keeps the last. */
  function FindMember(members: seq<(Text, Json)>, key: Text): Option<Json> {
    if members == [] then None
    else if members[|members| - 1].0 == key then Some(members[|members| - 1].1)
    else FindMember(members[..|members| - 1], key)
  }

  function NaturalMember(v: Json, key: Text): Option<nat> {
    match Member(v, key)
    case Some(Num(x)) => NaturalOf(x)
    case _ => None
  }

  /** decodeCursor; None is an InvalidCursorError. */
  function DecodeCursor(token: Text, expected: Text): (r: Option<Payload>)
    ensures r.Some? ==> r.value.fingerprint == expected && r.value.limit >= 1
  {
    match ReadValue(token)
    case None => None
    case Some((v, rest)) =>
      if rest != [] then None
      else if NaturalMember(v, KEY_V) != Some(CURSOR_VERSION) then None
      else
        match (NaturalMember(v, KEY_O), NaturalMember(v, KEY_L))
        case (Some(o), Some(l)) =>
          if l < 1 || Member(v, KEY_F) != Some(Str(expected)) then None else Some(Payload(o, l, expected))
        case _ => None
  }

  lemma TokenMembers(version: nat, p: Payload)
    ensures var v := TokenValue(version, p);
            && NaturalMember(v, KEY_V) == Some(version)
            && NaturalMember(v, KEY_O) == Some(p.offset)
            && NaturalMember(v, KEY_L) == Some(p.limit)
            && Member(v, KEY_F) == Some(Str(p.fingerprint))
  {
    NaturalRoundTrip(version);
    NaturalRoundTrip(p.offset);
    NaturalRoundTrip(p.limit);
    var m := TokenValue(version, p).members;
    assert m[..3][..2] == m[..2] && m[..2][..1] == m[..1];
    assert FindMember(m[..3], KEY_L) == Some(Num(NumberOf(p.limit)));
    assert FindMember(m[..2], KEY_O) == Some(Num(NumberOf(p.offset))) && FindMember(m[..3], KEY_O) == FindMember(m[..2], KEY_O);
    assert FindMember(m[..1], KEY_V) == Some(Num(NumberOf(version)));
    assert FindMember(m[..2], KEY_V) == FindMember(m[..1], KEY_V) && FindMember(m[..3], KEY_V) == FindMember(m[..2], KEY_V);
  }

  /**
   * A token decodes to what was encoded, provided it is of this version, has a limit, and was issued for
   * this query; any other is refused.
   */
  lemma CursorRoundTrip(version: nat, p: Payload, expected: Text)
    ensures DecodeCursor(EncodeToken(version, p), expected)
            == if version == 1 && p.limit >= 1 && p.fingerprint == expected then Some(p) else None
  {
    TokenNormal(version, p);
    TokenMembers(version, p);
    ReadRaw(TokenValue(version, p), []);
    assert Raw(TokenValue(version, p)) + [] == Raw(TokenValue(version, p));
  }

  // ---- Following the tokens ----

  datatype Response<T> = Response(results: seq<T>, nextCursor: Option<Text>)

  /**
   * One page of a fixed ordered result set. `total` is the row count reported beside the rows; a page
   * without rows reports none. None is an InvalidCursorError.
   */
  ghost function Page<T>(rows: seq<T>, total: nat, fingerprint: Text, cursor: Option<Text>, limit: nat): Option<Response<T>>
    requires limit >= 1
  {
    match (if cursor.None? then Some(Payload(0, limit, fingerprint)) else DecodeCursor(cursor.value, fingerprint))
    case None => None
    case Some(p) =>
      var from := if p.offset <= |rows| then p.offset else |rows|;
      var to := if from + limit <= |rows| then from + limit else |rows|;
      var results := rows[from..to];
      var reported := if results == [] then 0 else total;
      var next := p.offset + |results|;
      Some(Response(results, if next < reported then Some(EncodeCursor(Payload(next, limit, fingerprint))) else None))
  }

  /** The cursor a client sends after the responses it has. */
  function CursorAfter<T>(responses: seq<Response<T>>): Option<Text> {
    if responses == [] then None else responses[|responses| - 1].nextCursor
  }

  /** What a client receives that starts without a cursor and passes on each one it gets. */
  ghost predicate Session<T>(rows: seq<T>, total: nat, fingerprint: Text, limits: seq<nat>, responses: seq<Response<T>>)
    decreases |responses|
  {
    responses != [] ==>
      var k := |responses| - 1;
      && k < |limits| && limits[k] >= 1
      && Session(rows, total, fingerprint, limits, responses[..k])
      && (k > 0 ==> CursorAfter(responses[..k]).Some?)
      && Page(rows, total, fingerprint, CursorAfter(responses[..k]), limits[k]) == Some(responses[k])
  }

  function Rows<T>(responses: seq<Response<T>>): seq<T> {
    if responses == [] then [] else Rows(responses[..|responses| - 1]) + responses[|responses| - 1].results
  }

  /** The client holds the first rows in order, and its cursor resumes right behind them. */
  ghost predicate Resumes<T>(rows: seq<T>, fingerprint: Text, got: seq<T>, cursor: Option<Text>) {
    && |got| <= |rows| && got == rows[..|got|]
    && (cursor.Some? ==> DecodeCursor(cursor.value, fingerprint).Some? && DecodeCursor(cursor.value, fingerprint).value.offset == |got|)
  }

  lemma {:induction false} SessionProgress<T>(rows: seq<T>, total: nat, fingerprint: Text, limits: seq<nat>, responses: seq<Response<T>>)
    requires Session(rows, total, fingerprint, limits, responses) && total >= |rows|
    ensures Resumes(rows, fingerprint, Rows(responses), CursorAfter(responses))
    ensures CursorAfter(responses).Some? ==> |Rows(responses)| >= |responses|
    ensures CursorAfter(responses).None? && responses != [] ==> Rows(responses) == rows
    decreases |responses|
  {
    if responses != [] {
      var k := |responses| - 1;
      var before := responses[..k];
      SessionProgress(rows, total, fingerprint, limits, before);
      PageFrom(rows, total, fingerprint, CursorAfter(before), limits[k], Rows(before), responses[k]);
    }
  }

  /** The response holds the rows behind those already received: all that are left, but no more than the limit. */
  ghost predicate IsFull<T>(rows: seq<T>, limit: nat, got: seq<T>, r: Response<T>) {
    && |got| <= |rows|
    && |r.results| == (if |rows| - |got| <= limit then |rows| - |got| else limit)
    && r.results == rows[|got|..|got| + |r.results|]
  }

  lemma PageHolds<T>(rows: seq<T>, total: nat, fingerprint: Text, cursor: Option<Text>, limit: nat, got: seq<T>)
    requires limit >= 1 && Resumes(rows, fingerprint, got, cursor) && (cursor.None? ==> got == [])
    ensures var r := Page(rows, total, fingerprint, cursor, limit); r.Some? && IsFull(rows, limit, got, r.value)
  {
  }

  /** A page without rows reports no count, and so no cursor. */
  lemma PageCursor<T>(rows: seq<T>, total: nat, fingerprint: Text, cursor: Option<Text>, limit: nat, got: seq<T>, r: Response<T>)
    requires limit >= 1 && Resumes(rows, fingerprint, got, cursor) && (cursor.None? ==> got == [])
    requires Page(rows, total, fingerprint, cursor, limit) == Some(r)
    ensures var next := |got| + |r.results|;
            r.nextCursor == if r.results != [] && next < total then Some(EncodeCursor(Payload(next, limit, fingerprint))) else None
  {
  }

  lemma Extended<T>(rows: seq<T>, limit: nat, got: seq<T>, r: Response<T>)
    requires IsFull(rows, limit, got, r) && got == rows[..|got|]
    ensures |got + r.results| <= |rows| && got + r.results == rows[..|got + r.results|]
  {
  }

  /** A full response whose cursor, if any, points behind it resumes behind all rows received. */
  lemma ResponseResumes<T>(rows: seq<T>, total: nat, fingerprint: Text, limit: nat, got: seq<T>, r: Response<T>)
    requires limit >= 1 && total >= |rows| && IsFull(rows, limit, got, r) && got == rows[..|got|]
    requires var next := |got| + |r.results|;
             r.nextCursor == if r.results != [] && next < total then Some(EncodeCursor(Payload(next, limit, fingerprint))) else None
    ensures Resumes(rows, fingerprint, got + r.results, r.nextCursor)
    ensures r.nextCursor.Some? ==> r.results != []
    ensures r.nextCursor.None? ==> got + r.results == rows
  {
    Extended(rows, limit, got, r);
    CursorRoundTrip(CURSOR_VERSION, Payload(|got| + |r.results|, limit, fingerprint), fingerprint);
  }

  /** One page that resumes behind the rows already received. */
  lemma PageFrom<T>(rows: seq<T>, total: nat, fingerprint: Text, cursor: Option<Text>, limit: nat, got: seq<T>, r: Response<T>)
    requires limit >= 1 && total >= |rows| && Resumes(rows, fingerprint, got, cursor)
    requires (cursor.None? ==> got == []) && Page(rows, total, fingerprint, cursor, limit) == Some(r)
    ensures Resumes(rows, fingerprint, got + r.results, r.nextCursor)
    ensures r.nextCursor.Some? ==> r.results != []
    ensures r.nextCursor.None? ==> got + r.results == rows
  {
    PageHolds(rows, total, fingerprint, cursor, limit, got);
    PageCursor(rows, total, fingerprint, cursor, limit, got, r);
    ResponseResumes(rows, total, fingerprint, limit, got, r);
  }

  /**
   * Following the cursors ends and returns every row exactly once and in order, for any page limits and
   * also when more rows were counted than the result set holds: a session is never longer than one page
   * per row and a last one, it is complete when no cursor comes back, and any cursor can be followed.
   */
  lemma PagingReturnsEverything<T>(rows: seq<T>, total: nat, fingerprint: Text, limits: seq<nat>, responses: seq<Response<T>>, limit: nat)
    requires Session(rows, total, fingerprint, limits, responses) && responses != [] && total >= |rows| && limit >= 1
    ensures |responses| <= |rows| + 1
    ensures CursorAfter(responses).None? ==> Rows(responses) == rows
    ensures CursorAfter(responses).Some? ==> Page(rows, total, fingerprint, CursorAfter(responses), limit).Some?
  {
    var before := responses[..|responses| - 1];
    SessionProgress(rows, total, fingerprint, limits, responses);
    SessionProgress(rows, total, fingerprint, limits, before);
    if CursorAfter(responses).Some? {
      PageHolds(rows, total, fingerprint, CursorAfter(responses), limit, Rows(responses));
    }
  }

  /** The last response of a session is the page for the cursor before it. */
  lemma LastPage<T>(rows: seq<T>, total: nat, fingerprint: Text, limits: seq<nat>, responses: seq<Response<T>>)
    requires Session(rows, total, fingerprint, limits, responses) && responses != [] && total >= |rows|
    ensures var n := |responses| - 1;
            && n < |limits| && Session(rows, total, fingerprint, limits, responses[..n])
            && IsFull(rows, limits[n], Rows(responses[..n]), responses[n])
  {
    var n := |responses| - 1;
    var before := responses[..n];
    SessionProgress(rows, total, fingerprint, limits, before);
    PageHolds(rows, total, fingerprint, CursorAfter(before), limits[n], Rows(before));
    assert Page(rows, total, fingerprint, CursorAfter(before), limits[n]) == Some(responses[n]);
  }

  /** Every page of a session is as full as its limit and the rows allow. */
  lemma {:induction false} PagesAreFull<T>(rows: seq<T>, total: nat, fingerprint: Text, limits: seq<nat>, responses: seq<Response<T>>, k: nat)
    requires Session(rows, total, fingerprint, limits, responses) && total >= |rows| && k < |responses|
    ensures |limits| >= |responses| && IsFull(rows, limits[k], Rows(responses[..k]), responses[k])
    decreases |responses|
  {
    LastPage(rows, total, fingerprint, limits, responses);
    var before := responses[..|responses| - 1];
    if k < |before| {
      PagesAreFull(rows, total, fingerprint, limits, before, k);
      assert before[..k] == responses[..k] && before[k] == responses[k];
    }
  }
}
