/**
 * The offers table and the two-key duplicate check (app/ingestion/persist.py,
 * app/ingestion/dedup.py).
 */
module Offers {
  import opened Options

  /** A raw record as a connector hands it over, as text. */
  type Raw = string

  /** A validated offer: the fields the two duplicate checks read. */
  datatype Offer = Offer(
    title: string,
    company: string,
    location: Option<string>,
    salaryMin: Option<int>,
    salaryMax: Option<int>,
    salaryCurrency: Option<string>,
    canonicalUrl: Option<string>)

  datatype Row = Row(dedupHash: string, offer: Offer, rawPayload: Raw)

  /** What a mapped record offers to the loop: its parsed `posted_at` (none when missing or
      malformed) and the fields validation sees. */
  datatype Mapped = Mapped(postedAt: Option<real>, fields: string)

  /** Invalid records are dead-lettered by their URL, or by source, title and company. */
  datatype Validation = Valid(offer: Offer) | Invalid(resource: string, message: string)

  /** The code this model does not look inside, as arbitrary functions: the connector's mapping,
      schema validation, SHA-256, URL normalisation (none when the URL has no path to compare),
      and `strip().lower()`. */
  datatype Env = Env(
    mapOffer: Raw -> Mapped,
    validate: Mapped -> Validation,
    sha256: string -> string,
    comparableUrl: string -> Option<string>,
    folded: string -> string)

  /** `compute_dedup_hash`. */
  function DedupHash(env: Env, offer: Offer): string {
    if && GetOr(offer.canonicalUrl, "") != ""
       && env.comparableUrl(offer.canonicalUrl.value).Some?
    then
      env.sha256(env.comparableUrl(offer.canonicalUrl.value).value)
    else
      env.sha256(env.folded(offer.title) + "|" + env.folded(offer.company) + "|"
                 + env.folded(GetOr(offer.location, "")))
  }

  /** The null-safe equality of `_find_content_duplicate`. */
  predicate SameContent(a: Offer, b: Offer) {
    && a.company == b.company
    && a.title == b.title
    && a.salaryMin == b.salaryMin
    && a.salaryMax == b.salaryMax
    && a.salaryCurrency == b.salaryCurrency
  }

  /** Some stored row stands for this offer, by content or by dedup hash. */
  ghost predicate Represented(env: Env, rows: seq<Row>, offer: Offer) {
    exists r :: r in rows && StandsFor(env, r, offer)
  }

  predicate StandsFor(env: Env, r: Row, offer: Offer) {
    SameContent(r.offer, offer) || r.dedupHash == DedupHash(env, offer)
  }

  /** The table after `persist_offer`: unchanged exactly when the offer is represented. */
  ghost function Persist(env: Env, rows: seq<Row>, offer: Offer, raw: Raw): seq<Row> {
    if Represented(env, rows, offer) then rows else rows + [Row(DedupHash(env, offer), offer, raw)]
  }

  ghost predicate UniqueHashes(rows: seq<Row>) {
    forall i, j :: 0 <= i < j < |rows| ==> rows[i].dedupHash != rows[j].dedupHash
  }

  ghost predicate UniqueContent(rows: seq<Row>) {
    forall i, j :: 0 <= i < j < |rows| ==> !SameContent(rows[i].offer, rows[j].offer)
  }

  lemma RepresentedGrows(env: Env, rows: seq<Row>, more: seq<Row>, offer: Offer)
    requires rows <= more && Represented(env, rows, offer)
    ensures Represented(env, more, offer)
  {
    var i :| 0 <= i < |rows| && StandsFor(env, rows[i], offer);
    assert more[i] == rows[i];
  }

  lemma PersistRepresents(env: Env, rows: seq<Row>, offer: Offer, raw: Raw)
    ensures Represented(env, Persist(env, rows, offer, raw), offer)
    ensures rows <= Persist(env, rows, offer, raw)
  {
    if !Represented(env, rows, offer) {
      var r := Row(DedupHash(env, offer), offer, raw);
      assert r in rows + [r] && StandsFor(env, r, offer);
    }
  }

  /** Each key that is unique before a persist is unique after it. */
  lemma PersistKeepsKeysUnique(env: Env, rows: seq<Row>, offer: Offer, raw: Raw)
    ensures UniqueHashes(rows) ==> UniqueHashes(Persist(env, rows, offer, raw))
    ensures UniqueContent(rows) ==> UniqueContent(Persist(env, rows, offer, raw))
  {
    if !Represented(env, rows, offer) {
      forall i | 0 <= i < |rows|
        ensures !SameContent(rows[i].offer, offer) && rows[i].dedupHash != DedupHash(env, offer)
      {
        assert rows[i] in rows && !StandsFor(env, rows[i], offer);
      }
    }
  }

  // ---------------------------------------------------------------- what the dedup hash identifies

  /** The URL an offer is identified by, if it has one to compare. */
  function UrlKey(env: Env, offer: Offer): Option<string> {
    match offer.canonicalUrl
    case Some(url) => if url == "" then None else env.comparableUrl(url)
    case None => None
  }

  /** SHA-256 taken as free of collisions, and none of the texts the offers are hashed by holds a bar
      where it would be taken for a separator. */
  ghost predicate Separable(env: Env, a: Offer, b: Offer) {
    && (forall s, t :: env.sha256(s) == env.sha256(t) ==> s == t)
    && forall o :: o in {a, b} ==>
         && '|' !in env.folded(o.title) && '|' !in env.folded(o.company)
         && (UrlKey(env, o).Some? ==> '|' !in UrlKey(env, o).value)
  }

  lemma FirstBar(a: string, x: string, b: string, y: string)
    requires '|' !in a && '|' !in b
    ensures a + "|" + x == b + "|" + y <==> a == b && x == y
  {
    if a + "|" + x == b + "|" + y {
      var s, t := a + "|" + x, b + "|" + y;
      assert s[|a|] == '|' && t[|b|] == '|';
      assert |a| == |b|;
      assert s[..|a|] == a && t[..|b|] == b;
      assert s[|a| + 1..] == x && t[|b| + 1..] == y;
    }
  }

  lemma JoinBars(a: string, b: string, c: string)
    ensures a + "|" + b + "|" + c == a + "|" + (b + "|" + c)
    ensures '|' in a + "|" + b + "|" + c
  {
    assert (a + "|" + b + "|" + c)[|a|] == '|';
  }

  /** Two offers share a dedup hash exactly when both have a URL to compare and it is the same, or
      neither has and title, company and location are the same up to folding. */
  lemma SameHashIff(env: Env, a: Offer, b: Offer)
    requires Separable(env, a, b)
    ensures DedupHash(env, a) == DedupHash(env, b) <==>
              && UrlKey(env, a) == UrlKey(env, b)
              && (UrlKey(env, a).None? ==>
                    && env.folded(a.title) == env.folded(b.title) && env.folded(a.company) == env.folded(b.company)
                    && env.folded(GetOr(a.location, "")) == env.folded(GetOr(b.location, "")))
  {
    assert a in {a, b} && b in {a, b};
    var (t, c, l) := (env.folded(a.title), env.folded(a.company), env.folded(GetOr(a.location, "")));
    var (t', c', l') := (env.folded(b.title), env.folded(b.company), env.folded(GetOr(b.location, "")));
    JoinBars(t, c, l);
    JoinBars(t', c', l');
    FirstBar(t, c + "|" + l, t', c' + "|" + l');
    FirstBar(c, l, c', l');
  }

  /** The bars are what it takes: without a URL, a title and a company that hold one can be mistaken for
      others, and the second offer is then never stored. */
  lemma BarsCollide(env: Env, rows: seq<Row>, raw: Raw)
    requires forall s :: env.folded(s) == s
    ensures var a, b := Offer("a|b", "c", None, None, None, None, None), Offer("a", "b|c", None, None, None, None, None);
            var stored := rows + [Row(DedupHash(env, a), a, raw)];
            && !SameContent(a, b) && DedupHash(env, a) == DedupHash(env, b)
            && Persist(env, stored, b, raw) == stored
  {
    var a, b := Offer("a|b", "c", None, None, None, None, None), Offer("a", "b|c", None, None, None, None, None);
    assert a.title != b.title by { assert |a.title| != |b.title|; }
    assert "a|b" + "|" + "c" + "|" + "" == "a" + "|" + "b|c" + "|" + "";
    var r := Row(DedupHash(env, a), a, raw);
    assert r in rows + [r] && StandsFor(env, r, b);
  }

  /** The offers table, updated in place. */
  class OfferTable {
    var rows: seq<Row>

    constructor (initial: seq<Row>)
      ensures rows == initial
    {
      rows := initial;
    }

    /** `_find_content_duplicate`: any one row with the same content. */
    method FindContentDuplicate(offer: Offer) returns (found: Option<Row>)
      ensures found.Some? ==> found.value in rows && SameContent(found.value.offer, offer)
      ensures found.None? ==> forall r :: r in rows ==> !SameContent(r.offer, offer)
    {
      for i := 0 to |rows|
        invariant forall j :: 0 <= j < i ==> !SameContent(rows[j].offer, offer)
      {
        if SameContent(rows[i].offer, offer) { return Some(rows[i]); }
      }
      return None;
    }

    /** The row holding a dedup hash, by its unique index. */
    method FindByHash(hash: string) returns (found: Option<Row>)
      ensures found.Some? ==> found.value in rows && found.value.dedupHash == hash
      ensures found.None? ==> forall r :: r in rows ==> r.dedupHash != hash
    {
      for i := 0 to |rows|
        invariant forall j :: 0 <= j < i ==> rows[j].dedupHash != hash
      {
        if rows[i].dedupHash == hash { return Some(rows[i]); }
      }
      return None;
    }

    /** `persist_offer`: the row that now stands for the offer, and whether it was inserted. */
    method PersistOffer(env: Env, offer: Offer, raw: Raw) returns (row: Row, created: bool)
      modifies this
      ensures rows == Persist(env, old(rows), offer, raw)
      ensures row in rows && StandsFor(env, row, offer)
      ensures created <==> !Represented(env, old(rows), offer)
      ensures created <==> forall r :: r in old(rows) ==>
                && r.dedupHash != DedupHash(env, offer)
                && (r.offer.company != offer.company || r.offer.title != offer.title || r.offer.salaryMin != offer.salaryMin
                    || r.offer.salaryMax != offer.salaryMax || r.offer.salaryCurrency != offer.salaryCurrency)
      ensures created ==> row == Row(DedupHash(env, offer), offer, raw)
    {
      var duplicate := FindContentDuplicate(offer);
      if duplicate.Some? {
        assert StandsFor(env, duplicate.value, offer);
        return duplicate.value, false;
      }
      var hash := DedupHash(env, offer);
      var conflict := FindByHash(hash);
      if conflict.Some? {
        assert StandsFor(env, conflict.value, offer);
        return conflict.value, false;
      }
      row := Row(hash, offer, raw);
      rows := rows + [row];
      created := true;
    }
  }
}
