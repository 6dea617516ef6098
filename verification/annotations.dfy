/** The annotations table as values: its records, the row shown for a record, the order in
    which queries return records, the search filters, and the sets of records that a delete,
    a delete-all and an export by strain list touch. */
module Annotations {
  import opened Base
  import opened Chromosomes
  import opened TextOps

  /** One row of the annotations table: `chrom` is the chromosome number and `owner` the id of
      the user who stored it. */
  datatype Record = Record(
    id: int, strain: string, chrom: int, event: string, loh: string, tlabel: string,
    left: int, right: int, owner: string)

  /** A record as the search table and the export show it: chromosome by name, no owner
      column. */
  datatype Row = Row(
    id: int, strain: string, chrom: string, eventType: string, loh: string,
    transitionLabel: string, left: int, right: int)

  /** The displayed form of a record; the chromosome number must have a name. */
  function ToRow(r: Record): (row: Row)
    requires r.chrom in Id2Chrom
    ensures row.chrom in Chrom2Id && Chrom2Id[row.chrom] == r.chrom
  {
    IdRoundTrip(r.chrom);
    Row(r.id, r.strain, Id2Chrom[r.chrom], r.event, r.loh, r.tlabel, r.left, r.right)
  }

  /** Two records of one owner show the same row only if they are the same record: the
      displayed row drops the owner and nothing else. */
  lemma ToRowDropsOnlyOwner(a: Record, b: Record)
    requires a.chrom in Id2Chrom && b.chrom in Id2Chrom && a.owner == b.owner
    ensures ToRow(a) == ToRow(b) <==> a == b
  {
    if ToRow(a) == ToRow(b) {
      assert Chrom2Id[ToRow(a).chrom] == a.chrom && Chrom2Id[ToRow(b).chrom] == b.chrom;
    }
  }

  // ---------------------------------------------------------------------------------------
  // Order of query results: by strain, chromosome number, event, LOH class and transition
  // label, text compared code point by code point (SQLite's binary collation).

  /** `a` sorts before or equal to `b`: code point by code point, a proper prefix first. */
  predicate StrLe(a: string, b: string)
    decreases |a|
  {
    a == [] || (b != [] && (a[0] < b[0] || (a[0] == b[0] && StrLe(a[1..], b[1..]))))
  }

  lemma {:induction false} StrLeTotal(a: string, b: string)
    ensures StrLe(a, b) || StrLe(b, a)
    decreases |a|
  {
    if a != [] && b != [] && a[0] == b[0] {
      StrLeTotal(a[1..], b[1..]);
    }
  }

  lemma {:induction false} StrLeAntisymmetric(a: string, b: string)
    requires StrLe(a, b) && StrLe(b, a)
    ensures a == b
    decreases |a|
  {
    if a != [] {
      StrLeAntisymmetric(a[1..], b[1..]);
      assert a == [a[0]] + a[1..] && b == [b[0]] + b[1..];
    }
  }

  lemma {:induction false} StrLeTransitive(a: string, b: string, c: string)
    requires StrLe(a, b) && StrLe(b, c)
    ensures StrLe(a, c)
    decreases |a|
  {
    if a != [] && a[0] == b[0] && b[0] == c[0] {
      StrLeTransitive(a[1..], b[1..], c[1..]);
    }
  }

  /** One text key of the order, seen through its strict part: chaining two steps gives a
      step, and a step back to the start means all three keys are equal. */
  lemma StrKeyChain(a: string, b: string, c: string)
    requires a != b ==> StrLe(a, b)
    requires b != c ==> StrLe(b, c)
    ensures a != c ==> StrLe(a, c)
    ensures a == c ==> a == b
  {
    if a != b && b != c {
      StrLeTransitive(a, b, c);
      if a == c {
        StrLeAntisymmetric(a, b);
      }
    }
  }

  /** `a` may come before `b` in a query result. */
  predicate KeyLe(a: Record, b: Record) {
    if a.strain != b.strain then StrLe(a.strain, b.strain)
    else if a.chrom != b.chrom then a.chrom < b.chrom
    else if a.event != b.event then StrLe(a.event, b.event)
    else if a.loh != b.loh then StrLe(a.loh, b.loh)
    else StrLe(a.tlabel, b.tlabel)
  }

  lemma KeyLeTotal(a: Record, b: Record)
    ensures KeyLe(a, b) || KeyLe(b, a)
  {
    StrLeTotal(a.strain, b.strain);
    StrLeTotal(a.event, b.event);
    StrLeTotal(a.loh, b.loh);
    StrLeTotal(a.tlabel, b.tlabel);
  }

  lemma KeyLeTransitive(a: Record, b: Record, c: Record)
    requires KeyLe(a, b) && KeyLe(b, c)
    ensures KeyLe(a, c)
  {
    StrKeyChain(a.strain, b.strain, c.strain);
    if a.strain == b.strain && b.strain == c.strain && a.chrom == b.chrom && b.chrom == c.chrom {
      StrKeyChain(a.event, b.event, c.event);
      if a.event == b.event && b.event == c.event {
        StrKeyChain(a.loh, b.loh, c.loh);
        if a.loh == b.loh && b.loh == c.loh {
          StrLeTransitive(a.tlabel, b.tlabel, c.tlabel);
        }
      }
    }
  }

  predicate SortedByKey(s: seq<Record>) {
    forall i, j :: 0 <= i < j < |s| ==> KeyLe(s[i], s[j])
  }

  /** `x` placed into `s` before the first element it may precede. */
  function InsertByKey(x: Record, s: seq<Record>): (r: seq<Record>)
    ensures multiset(r) == multiset(s) + multiset{x}
  {
    if s == [] || KeyLe(x, s[0]) then [x] + s
    else
      assert s == [s[0]] + s[1..];
      [s[0]] + InsertByKey(x, s[1..])
  }

  lemma {:induction false} InsertByKeySorted(x: Record, s: seq<Record>)
    requires SortedByKey(s)
    ensures SortedByKey(InsertByKey(x, s))
  {
    var r := InsertByKey(x, s);
    if s == [] {
    } else if KeyLe(x, s[0]) {
      forall j | 1 <= j < |r| ensures KeyLe(x, r[j]) {
        if j > 1 {
          KeyLeTransitive(x, s[0], s[j - 1]);
        }
      }
    } else {
      KeyLeTotal(x, s[0]);
      var t := InsertByKey(x, s[1..]);
      InsertByKeySorted(x, s[1..]);
      forall j | 0 <= j < |t| ensures KeyLe(s[0], t[j]) {
        assert t[j] in multiset(t);
        assert t[j] in multiset(s[1..]) || t[j] == x;
        if t[j] != x {
          var k :| 0 <= k < |s[1..]| && s[1..][k] == t[j];
          assert s[k + 1] == t[j];
        }
      }
      assert r == [s[0]] + t;
    }
  }

  /** The records of `s` in query order (an insertion sort). */
  function Ordered(s: seq<Record>): (r: seq<Record>)
    ensures multiset(r) == multiset(s)
  {
    if s == [] then []
    else
      assert s == [s[0]] + s[1..];
      InsertByKey(s[0], Ordered(s[1..]))
  }

  /** Query order holds the same records as its input, sorted by the five keys. */
  lemma {:induction false} OrderedIsSortedPermutation(s: seq<Record>)
    ensures SortedByKey(Ordered(s)) && multiset(Ordered(s)) == multiset(s)
  {
    if s != [] {
      OrderedIsSortedPermutation(s[1..]);
      InsertByKeySorted(s[0], Ordered(s[1..]));
    }
  }

  // ---------------------------------------------------------------------------------------
  // Search filters.

  /** The filters of a search after normalisation: no strain, chromosome or event means
      "any". */
  datatype Query = Query(strain: Option<string>, chrom: Option<int>, event: Option<string>)

  /** The search inputs as `search` prepares them: an empty chromosome is no chromosome, any
      other is looked up by name. */
  function SearchQuery(strain: Option<string>, chrom: Option<string>, event: Option<string>): (q: Query)
    requires Filled(chrom) ==> chrom.value in Chrom2Id
    ensures q.strain == strain && q.event == event
    ensures q.chrom.None? <==> !Filled(chrom)
    ensures q.chrom.Some? ==> q.chrom.value in Id2Chrom && Id2Chrom[q.chrom.value] == chrom.value
  {
    if !Filled(chrom) then Query(strain, None, event)
    else
      NameRoundTrip(chrom.value);
      Query(strain, Some(Chrom2Id[chrom.value]), event)
  }

  /** A record the search returns: the owner's, and equal to every filter that is given. */
  predicate Matches(r: Record, owner: string, q: Query) {
    && r.owner == owner
    && (!Filled(q.strain) || r.strain == q.strain.value)
    && (q.chrom.None? || r.chrom == q.chrom.value)
    && (!Filled(q.event) || r.event == q.event.value)
  }

  predicate IsSqlSpace(c: char) {
    c == ' ' || c == '\t' || c == '\n' || c == '\r' || c == '\U{B}' || c == '\U{C}'
  }

  /** The text after its leading SQLite whitespace. */
  function SkipSqlSpaces(t: string): (u: string)
    ensures |u| <= |t|
    ensures u != [] ==> !IsSqlSpace(u[0])
  {
    if t != [] && IsSqlSpace(t[0]) then SkipSqlSpaces(t[1..]) else t
  }

  /** The longest prefix of decimal digits. */
  function LeadingDigits(t: string): (d: string)
    ensures |d| <= |t| && d == t[..|d|]
    ensures forall i :: 0 <= i < |d| ==> IsDigit(d[i])
    ensures |d| < |t| ==> !IsDigit(t[|d|])
  {
    if t == [] || !IsDigit(t[0]) then [] else [t[0]] + LeadingDigits(t[1..])
  }

  predicate HasNonzeroDigit(d: string) {
    exists i :: 0 <= i < |d| && d[i] != '0'
  }

  /** How SQLite reads a text value that stands alone as a condition: as the number its
      longest numeric prefix denotes (spaces, a sign, digits, a point and more digits), true
      when that number is not zero. */
  predicate SqlTruthy(t: string) {
    var u := SkipSqlSpaces(t);
    var v := if u != [] && (u[0] == '+' || u[0] == '-') then u[1..] else u;
    var whole := LeadingDigits(v);
    var rest := v[|whole|..];
    var fraction := if rest != [] && rest[0] == '.' then LeadingDigits(rest[1..]) else [];
    HasNonzeroDigit(whole + fraction)
  }

  /** The condition of `search` as written, branch by branch. When strain, chromosome and
      event are all given, the event column is used on its own as a condition instead of being
      compared with the chosen event. */
  predicate MatchesAsWritten(r: Record, owner: string, q: Query) {
    var noStrain, noChrom, noEvent := !Filled(q.strain), q.chrom.None?, !Filled(q.event);
    r.owner == owner &&
    if noStrain && noChrom && noEvent then true
    else if noStrain && noChrom then r.event == q.event.value
    else if noStrain && noEvent then r.chrom == q.chrom.value
    else if noEvent && noChrom then r.strain == q.strain.value
    else if noStrain then r.event == q.event.value && r.chrom == q.chrom.value
    else if noChrom then r.strain == q.strain.value && r.event == q.event.value
    else if noEvent then r.strain == q.strain.value && r.chrom == q.chrom.value
    else r.strain == q.strain.value && r.chrom == q.chrom.value && SqlTruthy(r.event)
  }

  /** With at most two filters given, the branches as written are the conjunctive filter. */
  lemma AsWrittenAgreesBelowThreeFilters(r: Record, owner: string, q: Query)
    requires !(Filled(q.strain) && q.chrom.Some? && Filled(q.event))
    ensures MatchesAsWritten(r, owner, q) == Matches(r, owner, q)
  {
  }

  predicate IsLetter(c: char) {
    'A' <= c <= 'Z' || 'a' <= c <= 'z'
  }

  /** With all three filters given, the search as written finds no record whose event
      starts with a letter, as every event on offer does. */
  lemma AsWrittenMissesWordEvents(r: Record, owner: string, q: Query)
    requires Filled(q.strain) && q.chrom.Some? && Filled(q.event)
    requires r.event != [] && IsLetter(r.event[0])
    ensures !MatchesAsWritten(r, owner, q)
  {
    var u := SkipSqlSpaces(r.event);
    assert u == r.event;
    assert LeadingDigits(u) == [];
    assert u[0..] == u;
  }

  /** A record that the complete search finds and the search as written does not. */
  lemma AsWrittenMissesStoredRecord()
    ensures var r := Record(1, "S1", 4, "CON", "A", "t1", 100, 200, "u1");
      var q := Query(Some("S1"), Some(4), Some("CON"));
      Matches(r, "u1", q) && !MatchesAsWritten(r, "u1", q)
  {
    var r := Record(1, "S1", 4, "CON", "A", "t1", 100, 200, "u1");
    AsWrittenMissesWordEvents(r, "u1", Query(Some("S1"), Some(4), Some("CON")));
  }

  /** The records a search selects, in table order. */
  function Select(rs: seq<Record>, owner: string, q: Query): seq<Record> {
    Filter(rs, (r: Record) => Matches(r, owner, q))
  }

  /** The records stored by `owner`, in table order. */
  function OwnerRecords(rs: seq<Record>, owner: string): seq<Record> {
    Filter(rs, (r: Record) => r.owner == owner)
  }

  /** A search returns exactly the owner's records that meet every given filter. */
  lemma SelectMembers(rs: seq<Record>, owner: string, q: Query)
    ensures forall r :: r in Select(rs, owner, q) ==>
      && r in rs && r.owner == owner
      && (!Filled(q.strain) || r.strain == q.strain.value)
      && (q.chrom.None? || r.chrom == q.chrom.value)
      && (!Filled(q.event) || r.event == q.event.value)
    ensures forall r :: r in rs && Matches(r, owner, q) ==> r in Select(rs, owner, q)
  {
    FilterMembers(rs, (r: Record) => Matches(r, owner, q));
  }

  /** A search without filters returns all of the owner's records. */
  lemma NoFilterSelectsOwnerRecords(rs: seq<Record>, owner: string, q: Query)
    requires !Filled(q.strain) && q.chrom.None? && !Filled(q.event)
    ensures Select(rs, owner, q) == OwnerRecords(rs, owner)
  {
    FilterSameTest(rs, (r: Record) => Matches(r, owner, q), (r: Record) => r.owner == owner);
  }

  /** A search result in query order: sorted, the same records as the selection, each of
      them the owner's and meeting the filters. */
  lemma OrderedSelect(rs: seq<Record>, owner: string, q: Query)
    ensures var m := Ordered(Select(rs, owner, q));
      && SortedByKey(m) && multiset(m) == multiset(Select(rs, owner, q))
      && (forall r :: r in m ==> r in rs && Matches(r, owner, q))
  {
    var selected := Select(rs, owner, q);
    OrderedIsSortedPermutation(selected);
    SelectMembers(rs, owner, q);
    forall r | r in Ordered(selected) ensures r in rs && Matches(r, owner, q) {
      assert r in multiset(Ordered(selected));
    }
  }

  // ---------------------------------------------------------------------------------------
  // Deleting.

  /** The id column equals the id typed in: SQLite compares the integer column with the text
      as a number. */
  predicate IdMatches(r: Record, text: string) {
    ParseInt(text) == Some(r.id)
  }

  /** The owner's records with the typed id: what `delete` looks up first. */
  function OwnedWithId(rs: seq<Record>, owner: string, text: string): seq<Record> {
    Filter(rs, (r: Record) => r.owner == owner && IdMatches(r, text))
  }

  /** The table after deleting every record with the typed id. */
  function RemoveId(rs: seq<Record>, text: string): seq<Record> {
    Filter(rs, (r: Record) => !IdMatches(r, text))
  }

  /** The table after deleting every record of `owner`. */
  function WithoutOwner(rs: seq<Record>, owner: string): seq<Record> {
    Filter(rs, (r: Record) => r.owner != owner)
  }

  /** Ids as the table keeps them: strictly increasing in table order. */
  predicate IdsIncreasing(rs: seq<Record>) {
    forall i, j :: 0 <= i < j < |rs| ==> rs[i].id < rs[j].id
  }

  /** Deleting rows keeps the ids increasing. */
  lemma {:induction false} FilterKeepsIdsIncreasing(rs: seq<Record>, keep: Record -> bool)
    requires IdsIncreasing(rs)
    ensures IdsIncreasing(Filter(rs, keep))
  {
    if rs != [] {
      var tail := Filter(rs[1..], keep);
      FilterKeepsIdsIncreasing(rs[1..], keep);
      FilterMembers(rs[1..], keep);
      forall j | 0 <= j < |tail| ensures rs[0].id < tail[j].id {
        assert tail[j] in rs[1..];
      }
    }
  }

  /** The lookup finds something exactly when the owner has a record with that id. */
  lemma OwnedWithIdFound(rs: seq<Record>, owner: string, text: string)
    ensures |OwnedWithId(rs, owner, text)| > 0 <==>
      exists k :: 0 <= k < |rs| && rs[k].owner == owner && IdMatches(rs[k], text)
  {
    var keep := (r: Record) => r.owner == owner && IdMatches(r, text);
    FilterMembers(rs, keep);
    if |OwnedWithId(rs, owner, text)| > 0 {
      var found := OwnedWithId(rs, owner, text);
      assert found[0] in found;
      var k :| 0 <= k < |rs| && rs[k] == found[0];
    } else {
      forall k | 0 <= k < |rs| ensures !(rs[k].owner == owner && IdMatches(rs[k], text)) {
        assert rs[k] in rs;
      }
    }
  }

  /** Deleting an id the owner holds removes that one record and keeps the rest in order. */
  lemma DeleteRemovesOnlyTarget(rs: seq<Record>, text: string, k: int)
    requires IdsIncreasing(rs) && 0 <= k < |rs| && IdMatches(rs[k], text)
    ensures RemoveId(rs, text) == rs[..k] + rs[k + 1..]
  {
    var keep := (r: Record) => !IdMatches(r, text);
    var before, after := rs[..k], rs[k + 1..];
    assert forall i :: 0 <= i < |before| ==> before[i].id < rs[k].id;
    assert forall i :: 0 <= i < |after| ==> after[i].id > rs[k].id;
    assert rs == before + [rs[k]] + after;
    FilterDropsOne(before, rs[k], after, keep);
  }

  /** Deleting one of the owner's ids leaves every other owner's records as they were. */
  lemma DeleteKeepsOtherOwners(rs: seq<Record>, owner: string, text: string, k: int, other: string)
    requires IdsIncreasing(rs) && 0 <= k < |rs| && rs[k].owner == owner && IdMatches(rs[k], text)
    requires other != owner
    ensures OwnerRecords(RemoveId(rs, text), other) == OwnerRecords(rs, other)
  {
    var isOther := (r: Record) => r.owner == other;
    var before, after := rs[..k], rs[k + 1..];
    DeleteRemovesOnlyTarget(rs, text, k);
    assert Filter(before + after, isOther) == Filter(before, isOther) + Filter(after, isOther) by {
      FilterAppend(before, after, isOther);
    }
    assert Filter(rs, isOther) == Filter(before, isOther) + Filter(after, isOther) by {
      assert rs == before + [rs[k]] + after;
      FilterAppend(before + [rs[k]], after, isOther);
      FilterAppend(before, [rs[k]], isOther);
      FilterNone([rs[k]], isOther);
    }
  }


  /** After a delete no record carries the deleted id, so deleting it again fails. */
  lemma DeleteThenNotFound(rs: seq<Record>, owner: string, text: string)
    ensures OwnedWithId(RemoveId(rs, text), owner, text) == []
  {
    var rest := RemoveId(rs, text);
    assert forall i :: 0 <= i < |rest| ==> !IdMatches(rest[i], text);
    FilterNone(rest, (r: Record) => r.owner == owner && IdMatches(r, text));
  }

  /** Deleting all of an owner's records leaves none of theirs and all of everyone else's. */
  lemma DeleteAllScope(rs: seq<Record>, owner: string, other: string)
    ensures OwnerRecords(WithoutOwner(rs, owner), owner) == []
    ensures other != owner ==> OwnerRecords(WithoutOwner(rs, owner), other) == OwnerRecords(rs, other)
  {
    var rest := WithoutOwner(rs, owner);
    FilterNone(rest, (r: Record) => r.owner == owner);
    if other != owner {
      FilterFilter(rs, (r: Record) => r.owner != owner, (r: Record) => r.owner == other);
    }
  }

  // ---------------------------------------------------------------------------------------
  // Export by strain list.

  /** The owner's records whose strain is on the list. */
  function StrainRecords(rs: seq<Record>, owner: string, strains: seq<string>): seq<Record> {
    Filter(rs, (r: Record) => r.owner == owner && r.strain in strains)
  }

  /** The export holds exactly the owner's records whose strain is on the list. */
  lemma StrainRecordsMembers(rs: seq<Record>, owner: string, strains: seq<string>)
    ensures forall r :: r in StrainRecords(rs, owner, strains) ==> r in rs && r.owner == owner && r.strain in strains
    ensures forall r :: r in rs && r.owner == owner && r.strain in strains ==> r in StrainRecords(rs, owner, strains)
  {
    FilterMembers(rs, (r: Record) => r.owner == owner && r.strain in strains);
  }

  /** Which records are exported depends only on which strains are listed, not on repeats
      or order: de-duplicating the list first changes nothing. */
  lemma StrainRecordsIgnoreRepeats(rs: seq<Record>, owner: string, strains: seq<string>)
    ensures StrainRecords(rs, owner, Dedup(strains)) == StrainRecords(rs, owner, strains)
  {
    DedupMembers(strains);
    FilterSameTest(rs, (r: Record) => r.owner == owner && r.strain in Dedup(strains),
                       (r: Record) => r.owner == owner && r.strain in strains);
  }

  /** An export in query order: sorted, the same records as the selection, each of them the
      owner's with a listed strain. */
  lemma OrderedStrainRecords(rs: seq<Record>, owner: string, strains: seq<string>)
    ensures var m := Ordered(StrainRecords(rs, owner, strains));
      && SortedByKey(m) && multiset(m) == multiset(StrainRecords(rs, owner, strains))
      && (forall r :: r in m ==> r in rs && r.owner == owner && r.strain in strains)
  {
    var selected := StrainRecords(rs, owner, strains);
    OrderedIsSortedPermutation(selected);
    StrainRecordsMembers(rs, owner, strains);
    forall r | r in Ordered(selected) ensures r in rs && r.owner == owner && r.strain in strains {
      assert r in multiset(Ordered(selected));
    }
  }
}
