/** The annotations table and the callbacks that read and change it. The table is kept in
    memory: its rows in insertion order and the next id that an insert hands out. The user id
    of the logged-in user is passed in as `owner`; whether the callback's own button fired it
    is passed in as `pressed`. */
module Store {
  import opened Base
  import opened Chromosomes
  import opened TextOps
  import opened Form
  import opened Annotations
  import opened StrainList

  /** The record that `insert` stores for a complete draft: the chromosome by number, the
      boundaries as integers, the owner as given. */
  function NewRecord(id: int, owner: string, d: Draft): (r: Record)
    requires AllPresent(d) && d.chrom.value in Chrom2Id
    requires ParseInt(d.left.value).Some? && ParseInt(d.right.value).Some?
    ensures r.chrom in Id2Chrom && Id2Chrom[r.chrom] == d.chrom.value
    ensures Some(r.left) == ParseInt(d.left.value) && Some(r.right) == ParseInt(d.right.value)
    ensures r.id == id && r.owner == owner
  {
    NameRoundTrip(d.chrom.value);
    Record(id, d.strain.value, Chrom2Id[d.chrom.value], d.event.value, d.loh.value,
           d.tlabel.value, ParseInt(d.left.value).value, ParseInt(d.right.value).value, owner)
  }

  /** A stored draft is displayed with the chromosome name and the texts that were entered,
      and boundaries that read back as the integers stored. */
  lemma InsertedRowShowsDraft(id: int, owner: string, d: Draft)
    requires AllPresent(d) && d.chrom.value in Chrom2Id
    requires ParseInt(d.left.value).Some? && ParseInt(d.right.value).Some?
    ensures var row := ToRow(NewRecord(id, owner, d));
      && row.strain == d.strain.value && row.chrom == d.chrom.value
      && row.eventType == d.event.value && row.loh == d.loh.value
      && row.transitionLabel == d.tlabel.value
      && ParseInt(IntText(row.left)) == ParseInt(d.left.value)
      && ParseInt(IntText(row.right)) == ParseInt(d.right.value)
  {
    var r := NewRecord(id, owner, d);
    ParseIntText(r.left);
    ParseIntText(r.right);
  }

  /** The loop of `search` that turns the fetched records into table rows: column 8 (the
      owner) skipped, the chromosome column translated to its name, order kept. `ad_export`
      maps its columns the same way. */
  method DisplayRows(recs: seq<Record>) returns (data: seq<Row>)
    requires forall r :: r in recs ==> r.chrom in Id2Chrom
    ensures |data| == |recs|
    ensures forall i :: 0 <= i < |recs| ==> data[i] == ToRow(recs[i])
  {
    data := [];
    var k := 0;
    while k < |recs|
      invariant 0 <= k <= |recs|
      invariant |data| == k
      invariant forall i :: 0 <= i < k ==> data[i] == ToRow(recs[i])
    {
      data := data + [ToRow(recs[k])];
      k := k + 1;
    }
  }

  class AnnotationStore {
    var records: seq<Record>
    var nextId: int

    /** Ids are positive, increase in table order and stay below the next id; every
        chromosome number has a name. */
    ghost predicate Valid()
      reads this
    {
      && nextId >= 1
      && IdsIncreasing(records)
      && (forall r :: r in records ==> 1 <= r.id < nextId && r.chrom in Id2Chrom)
    }

    constructor ()
      ensures Valid() && records == [] && nextId == 1
    {
      records := [];
      nextId := 1;
    }

    /** `insert`: on the submit button and with every field present, one record is added
        under the next id and the success message opens; otherwise nothing changes. */
    method Insert(pressed: bool, owner: string, d: Draft) returns (added: bool)
      requires Valid()
      requires pressed && AllPresent(d) ==>
        d.chrom.value in Chrom2Id && ParseInt(d.left.value).Some? && ParseInt(d.right.value).Some?
      modifies this
      ensures Valid()
      ensures added <==> pressed && AllPresent(d)
      ensures added ==> records == old(records) + [NewRecord(old(nextId), owner, d)] && nextId == old(nextId) + 1
      ensures !added ==> records == old(records) && nextId == old(nextId)
    {
      if pressed && AllPresent(d) {
        var r := NewRecord(nextId, owner, d);
        records := records + [r];
        nextId := nextId + 1;
        return true;
      }
      return false;
    }

    /** `search`: on the search button, the owner's records that meet the given filters, in
        the five-key order, each shown as a row; otherwise the table is left as it is. */
    method Search(pressed: bool, owner: string, strain: Option<string>, chrom: Option<string>, event: Option<string>)
      returns (rows: Update<seq<Row>>, ghost found: seq<Record>)
      requires Valid()
      requires Filled(chrom) ==> chrom.value in Chrom2Id
      ensures rows.NewValue? <==> pressed
      ensures pressed ==>
        && multiset(found) == multiset(Select(records, owner, SearchQuery(strain, chrom, event)))
        && SortedByKey(found)
        && (forall r :: r in found ==> r in records && r.owner == owner)
        && |rows.value| == |found|
        && (forall i :: 0 <= i < |found| ==> rows.value[i] == ToRow(found[i]))
    {
      var q := SearchQuery(strain, chrom, event);
      if !pressed {
        return NoUpdate, [];
      }
      var matched := Ordered(Select(records, owner, q));
      found := matched;
      OrderedSelect(records, owner, q);
      var data := DisplayRows(matched);
      rows := NewValue(data);
    }

    /** `delete`: on the delete button with an id typed in, the owner's record with that id
        is removed (success message) or, when the owner has none, nothing changes (failure
        message); without a typed id, or on any other trigger, neither message opens. */
    method Delete(pressed: bool, owner: string, recordId: Option<string>) returns (deleted: bool, failed: bool)
      requires Valid()
      modifies this
      ensures Valid() && nextId == old(nextId)
      ensures deleted <==> pressed && Filled(recordId) && OwnedWithId(old(records), owner, recordId.value) != []
      ensures failed <==> pressed && Filled(recordId) && OwnedWithId(old(records), owner, recordId.value) == []
      ensures records == if deleted then RemoveId(old(records), recordId.value) else old(records)
    {
      if pressed && Filled(recordId) {
        var text := recordId.value;
        var recs := OwnedWithId(records, owner, text);
        if |recs| > 0 {
          FilterKeepsIdsIncreasing(records, (r: Record) => !IdMatches(r, text));
          FilterMembers(records, (r: Record) => !IdMatches(r, text));
          records := RemoveId(records, text);
          return true, false;
        }
        return false, true;
      }
      return false, false;
    }

    /** `delete_all`: on its button, every record of the owner is removed and the message
        opens; otherwise nothing changes. */
    method DeleteAll(pressed: bool, owner: string) returns (done: bool)
      requires Valid()
      modifies this
      ensures Valid() && nextId == old(nextId)
      ensures done == pressed
      ensures records == if pressed then WithoutOwner(old(records), owner) else old(records)
    {
      if pressed {
        FilterKeepsIdsIncreasing(records, (r: Record) => r.owner != owner);
        FilterMembers(records, (r: Record) => r.owner != owner);
        records := WithoutOwner(records, owner);
        return true;
      }
      return false;
    }

    /** `ad_export`: on its button, the owner's records whose strain is among the names
        typed in, in the five-key order, as rows (chromosome by name, no owner column);
        otherwise no download. */
    method AdExport(pressed: bool, owner: string, text: Option<string>)
      returns (sheet: Update<seq<Row>>, ghost found: seq<Record>)
      requires Valid()
      requires pressed ==> text.Some?
      ensures sheet.NewValue? <==> pressed
      ensures pressed ==>
        && multiset(found) == multiset(StrainRecords(records, owner, Split(text.value)))
        && SortedByKey(found)
        && (forall r :: r in found ==> r in records && r.owner == owner && r.strain in Split(text.value))
        && |sheet.value| == |found|
        && (forall i :: 0 <= i < |found| ==> sheet.value[i] == ToRow(found[i]))
    {
      if !pressed {
        return NoUpdate, [];
      }
      var items := StrainTokens(text.value);
      var list, seen := UniqueStrains(items);
      StrainRecordsIgnoreRepeats(records, owner, items);
      var matched := Ordered(StrainRecords(records, owner, list));
      found := matched;
      OrderedStrainRecords(records, owner, items);
      var data := DisplayRows(matched);
      sheet := NewValue(data);
    }
  }
}
