/** The interviewer dashboard's logic (src/components/InterviewerTab.tsx):
    the fetch-and-upsert of a room's candidates into the client store, the
    search filter, the descending score sort, and the status and score tags. */
module InterviewerTab {
  import opened Wrappers
  import opened Text
  import opened CandidatesSlice
  import opened ChatSession

  // ---------------------------------------------------------------------------
  // fetch and upsert

  /** Records in `cs` carrying `id`. */
  function CountId(cs: seq<Candidate>, id: string): nat {
    if |cs| == 0 then 0 else (if cs[0].id == id then 1 else 0) + CountId(cs[1..], id)
  }

  lemma {:induction false} CountIdAppend(cs: seq<Candidate>, c: Candidate, id: string)
    ensures CountId(cs + [c], id) == CountId(cs, id) + (if c.id == id then 1 else 0)
  {
    if |cs| > 0 {
      assert (cs + [c])[1..] == cs[1..] + [c];
      CountIdAppend(cs[1..], c, id);
    }
  }

  /** Two lists with the same ids position by position hold each id equally often. */
  lemma {:induction false} SameIdsSameCount(a: seq<Candidate>, b: seq<Candidate>, id: string)
    requires |a| == |b| && forall j :: 0 <= j < |a| ==> a[j].id == b[j].id
    ensures CountId(a, id) == CountId(b, id)
  {
    if |a| > 0 {
      SameIdsSameCount(a[1..], b[1..], id);
    }
  }

  /** Fetched records whose id the snapshot does not know. */
  function CountUnknown(snapshot: seq<Candidate>, data: seq<Candidate>): nat {
    if |data| == 0 then 0
    else (if Find(snapshot, data[0].id).None? then 1 else 0) + CountUnknown(snapshot, data[1..])
  }

  /** The `forEach` over the fetched records. Whether a record is known is
      decided against `snapshot`, the list the effect closed over; the
      dispatches go to `live`. A known id is merged in with every field of
      the fetched record, an unknown one is appended. The records already
      stored keep their place and their id; only unknown ones are added. */
  function Upsert(snapshot: seq<Candidate>, live: seq<Candidate>, data: seq<Candidate>): (r: seq<Candidate>)
    ensures |r| == |live| + CountUnknown(snapshot, data)
    ensures forall j :: 0 <= j < |live| ==> r[j].id == live[j].id
    ensures forall j :: |live| <= j < |r| ==> Find(snapshot, r[j].id).None?
    decreases |data|
  {
    if |data| == 0 then live
    else
      var d := data[0];
      var next := if Find(snapshot, d.id).None? then AddCandidate(live, d)
                  else UpdateCandidate(live, d.id, AllFieldsOf(d));
      Upsert(snapshot, next, data[1..])
  }

  /** A record whose id the snapshot knows is never added again: the
      upsert leaves the number of records with that id unchanged. */
  lemma {:induction false} UpsertNeverDuplicatesKnown(snapshot: seq<Candidate>, live: seq<Candidate>, data: seq<Candidate>, id: string)
    requires Find(snapshot, id).Some?
    ensures CountId(Upsert(snapshot, live, data), id) == CountId(live, id)
    decreases |data|
  {
    if |data| > 0 {
      var d := data[0];
      if Find(snapshot, d.id).None? {
        var next := AddCandidate(live, d);
        assert d.id != id;
        CountIdAppend(live, d, id);
        UpsertNeverDuplicatesKnown(snapshot, next, data[1..], id);
      } else {
        var next := UpdateCandidate(live, d.id, AllFieldsOf(d));
        SameIdsSameCount(next, live, id);
        UpsertNeverDuplicatesKnown(snapshot, next, data[1..], id);
      }
    }
  }

  datatype FetchOutcome = NavigateTo(path: string) | Loaded(candidates: seq<Candidate>)

  const RoomsPath := "/interviewer/rooms"

  /** The fetch effect. A missing or empty room code navigates back to the
      room list without fetching; a failed fetch leaves the store as it
      was; otherwise the fetched records are upserted against the store. */
  function FetchCandidates(roomCode: Option<string>, store: seq<Candidate>, reply: Option<seq<Candidate>>): (r: FetchOutcome)
    ensures r.NavigateTo? <==> roomCode.None? || roomCode.value == ""
    ensures r.NavigateTo? ==> r.path == RoomsPath
    ensures r.Loaded? && reply.None? ==> r.candidates == store
    ensures r.Loaded? && reply.Some? ==> |r.candidates| == |store| + CountUnknown(store, reply.value)
  {
    if roomCode.None? || roomCode.value == "" then NavigateTo(RoomsPath)
    else
      match reply
      case None => Loaded(store)
      case Some(data) => Loaded(Upsert(store, store, data))
  }

  /** Re-fetching the same room never duplicates a candidate already in the store. */
  lemma RefetchKeepsIdsUnique(roomCode: string, store: seq<Candidate>, data: seq<Candidate>, id: string)
    requires roomCode != "" && Find(store, id).Some?
    ensures CountId(FetchCandidates(Some(roomCode), store, Some(data)).candidates, id) == CountId(store, id)
  {
    UpsertNeverDuplicatesKnown(store, store, data, id);
  }

  // ---------------------------------------------------------------------------
  // search filter

  /** The lower-cased name or e-mail contains the lower-cased search text,
      or the phone contains the search text as typed. */
  predicate Matches(c: Candidate, search: string) {
    || Contains(ToLower(c.name), ToLower(search))
    || Contains(ToLower(c.email), ToLower(search))
    || Contains(c.phone, search)
  }

  function Filter(cs: seq<Candidate>, search: string): (r: seq<Candidate>)
    ensures forall c :: c in r <==> c in cs && Matches(c, search)
    ensures |r| <= |cs|
  {
    if |cs| == 0 then []
    else (if Matches(cs[0], search) then [cs[0]] else []) + Filter(cs[1..], search)
  }

  /** An empty search keeps every candidate, in order. */
  lemma {:induction false} EmptySearchKeepsAll(cs: seq<Candidate>)
    ensures Filter(cs, "") == cs
  {
    if |cs| > 0 {
      ContainsEmpty(ToLower(cs[0].name));
      EmptySearchKeepsAll(cs[1..]);
    }
  }

  /** Letter case in the search text does not matter for names and e-mails. */
  lemma LowerOfUpper(s: string)
    ensures ToLower(ToUpper(s)) == ToLower(s)
  {
  }

  // ---------------------------------------------------------------------------
  // score sort

  /** The number the comparator subtracts. A NaN final score comes back from
      the server as null, which subtraction treats as 0. */
  function SortKey(c: Candidate): int {
    match c.finalScore
    case Tenths(t) => t
    case NaN => 0
  }

  predicate SortedDesc(cs: seq<Candidate>) {
    forall i, j :: 0 <= i < j < |cs| ==> SortKey(cs[i]) >= SortKey(cs[j])
  }

  /** The records with sort key `k`, in order. */
  function WithKey(cs: seq<Candidate>, k: int): seq<Candidate> {
    if |cs| == 0 then []
    else (if SortKey(cs[0]) == k then [cs[0]] else []) + WithKey(cs[1..], k)
  }

  /** Places `c` before the first record that does not outrank it. */
  function Insert(c: Candidate, sorted: seq<Candidate>): (r: seq<Candidate>)
    ensures multiset(r) == multiset(sorted) + multiset{c}
  {
    if |sorted| == 0 then [c]
    else if SortKey(c) >= SortKey(sorted[0]) then [c] + sorted
    else
      assert sorted == [sorted[0]] + sorted[1..];
      [sorted[0]] + Insert(c, sorted[1..])
  }

  /** Inserting under a bound keeps every key under it. */
  lemma {:induction false} InsertBounded(c: Candidate, s: seq<Candidate>, b: int)
    requires SortKey(c) <= b
    requires forall i :: 0 <= i < |s| ==> SortKey(s[i]) <= b
    ensures forall i :: 0 <= i < |Insert(c, s)| ==> SortKey(Insert(c, s)[i]) <= b
  {
    if |s| > 0 && SortKey(c) < SortKey(s[0]) {
      InsertBounded(c, s[1..], b);
    }
  }

  /** A key at least every key of a sorted list can head it. */
  lemma SortedCons(x: Candidate, rest: seq<Candidate>)
    requires SortedDesc(rest)
    requires forall i :: 0 <= i < |rest| ==> SortKey(rest[i]) <= SortKey(x)
    ensures SortedDesc([x] + rest)
  {
    var r := [x] + rest;
    forall i, j | 0 <= i < j < |r| ensures SortKey(r[i]) >= SortKey(r[j]) {
      assert r[j] == rest[j - 1];
      if i > 0 {
        assert r[i] == rest[i - 1];
      }
    }
  }

  /** Inserting into a sorted list keeps it sorted. */
  lemma {:induction false} InsertSorted(c: Candidate, s: seq<Candidate>)
    requires SortedDesc(s)
    ensures SortedDesc(Insert(c, s))
  {
    if |s| > 0 && SortKey(c) < SortKey(s[0]) {
      var tail := s[1..];
      assert SortedDesc(tail) by {
        forall i, j | 0 <= i < j < |tail| ensures SortKey(tail[i]) >= SortKey(tail[j]) {
          assert tail[i] == s[i + 1] && tail[j] == s[j + 1];
        }
      }
      assert forall i :: 0 <= i < |tail| ==> SortKey(tail[i]) <= SortKey(s[0]) by {
        forall i | 0 <= i < |tail| ensures SortKey(tail[i]) <= SortKey(s[0]) {
          assert tail[i] == s[i + 1];
        }
      }
      InsertSorted(c, tail);
      InsertBounded(c, tail, SortKey(s[0]));
      SortedCons(s[0], Insert(c, tail));
    } else if |s| > 0 {
      SortedCons(c, s);
    }
  }

  /** `[...filtered].sort((a, b) => b.finalScore - a.finalScore)`: a
      stable sort by descending score. */
  function SortDesc(cs: seq<Candidate>): (r: seq<Candidate>)
    ensures multiset(r) == multiset(cs)
    ensures SortedDesc(r)
  {
    if |cs| == 0 then []
    else
      assert cs == [cs[0]] + cs[1..];
      InsertSorted(cs[0], SortDesc(cs[1..]));
      Insert(cs[0], SortDesc(cs[1..]))
  }

  lemma {:induction false} WithKeyInsert(c: Candidate, s: seq<Candidate>, k: int)
    ensures WithKey(Insert(c, s), k) == (if SortKey(c) == k then [c] else []) + WithKey(s, k)
  {
    var mine := if SortKey(c) == k then [c] else [];
    if |s| == 0 {
      assert WithKey([c], k) == mine + WithKey([c][1..], k);
    } else if SortKey(c) >= SortKey(s[0]) {
      var r := [c] + s;
      assert r[0] == c && r[1..] == s;
      assert WithKey(r, k) == mine + WithKey(s, k);
    } else {
      var rest := Insert(c, s[1..]);
      var r := [s[0]] + rest;
      var head := if SortKey(s[0]) == k then [s[0]] else [];
      assert r[0] == s[0] && r[1..] == rest;
      WithKeyInsert(c, s[1..], k);
      assert WithKey(r, k) == head + (mine + WithKey(s[1..], k));
      assert head == [] || mine == [];
      assert WithKey(s, k) == head + WithKey(s[1..], k);
    }
  }

  /** The sort is stable: records with equal scores keep their relative order. */
  lemma {:induction false} SortDescStable(cs: seq<Candidate>, k: int)
    ensures WithKey(SortDesc(cs), k) == WithKey(cs, k)
  {
    if |cs| > 0 {
      SortDescStable(cs[1..], k);
      WithKeyInsert(cs[0], SortDesc(cs[1..]), k);
    }
  }

  /** The table's rows: exactly the matching candidates, highest score first. */
  function Rows(cs: seq<Candidate>, search: string): (r: seq<Candidate>)
    ensures forall c :: c in r <==> c in cs && Matches(c, search)
    ensures SortedDesc(r)
  {
    var f := Filter(cs, search);
    var r := SortDesc(f);
    assert forall c :: c in r <==> c in multiset(f);
    r
  }

  // ---------------------------------------------------------------------------
  // tags

  datatype TagColor = Green | Orange | Red | Blue | Plain

  /** Green from 7, orange from 5, red below (and for a NaN score, which
      fails both comparisons). */
  function ScoreColor(v: ScoreValue): (col: TagColor)
    ensures col in {Green, Orange, Red}
    ensures col == Green <==> v.Tenths? && v.tenths >= 70
    ensures col == Red <==> v.NaN? || v.tenths < 50
  {
    match v
    case NaN => Red
    case Tenths(t) => if t >= 70 then Green else if t >= 50 then Orange else Red
  }

  function ColorRank(col: TagColor): nat {
    match col
    case Red => 0
    case Orange => 1
    case _ => 2
  }

  /** A higher score never gets a worse colour. */
  lemma ScoreColorMonotone(a: int, b: int)
    requires a <= b
    ensures ColorRank(ScoreColor(Tenths(a))) <= ColorRank(ScoreColor(Tenths(b)))
  {
  }

  /** `s/10` for a positive score, `N/A` for zero, a negative score or NaN. */
  function ScoreLabel(v: ScoreValue): (s: string)
    ensures s == "N/A" <==> !(v.Tenths? && v.tenths > 0)
    ensures v.Tenths? && v.tenths > 0 ==> s == FormatScore(v) + "/10"
  {
    if v.Tenths? && v.tenths > 0 then
      var s := FormatScore(v) + "/10";
      assert s[|s| - 1] == '0';
      s
    else "N/A"
  }

  /** The status tag: green for completed, blue for in progress, the plain
      colour otherwise. */
  function StatusColor(s: Status): (col: TagColor)
    ensures col in {Green, Blue, Plain}
    ensures col == Green <==> s == Status.Completed
    ensures col == Blue <==> s == InProgress
  {
    if s == Status.Completed then Green else if s == InProgress then Blue else Plain
  }

  /** The status tag's text: the status name upper-cased. */
  function StatusText(s: Status): (t: string)
    ensures t == ToUpper(StatusName(s))
  {
    match s
    case Pending => assert ToUpper("pending") == "PENDING"; "PENDING"
    case InProgress => assert ToUpper("in-progress") == "IN-PROGRESS"; "IN-PROGRESS"
    case Completed => assert ToUpper("completed") == "COMPLETED"; "COMPLETED"
  }

  /** Distinct statuses get distinct tag texts. */
  lemma StatusTextInjective(a: Status, b: Status)
    requires StatusText(a) == StatusText(b)
    ensures a == b
  {
    assert "PENDING"[0] != "IN-PROGRESS"[0] && "PENDING"[0] != "COMPLETED"[0];
    assert "IN-PROGRESS"[0] != "COMPLETED"[0];
  }
}
