/** Reading an uploaded coverage track (`gen_chrom_dropdown`, `load_output`) and picking the
    rows of one chromosome for the plot (`display_graph`). The file arrives already split
    into a header width and rows of cells; the two coverage columns are carried as opaque
    values of type V. */
module Upload {
  import opened Base
  import opened TextOps
  import opened Chromosomes

  /** One data line as the table reader sees it. `pos` is None when the position cell does
      not convert to an integer. */
  datatype RawRow<V> = RawRow(chrom: string, pos: Option<int>, w303: V, yjm: V)

  /** The table read from the file: how many columns its header has, and its data rows. */
  datatype RawTable<V> = RawTable(columns: nat, rows: seq<RawRow<V>>)

  /** A row of the coverage track after renaming and normalisation. */
  datatype TrackRow<V> = TrackRow(chrom: string, pos: int, w303: V, yjm: V)

  datatype Parsed<V> = Parsed(options: seq<string>, track: seq<TrackRow<V>>)

  /** The one failure an upload can have: "There was an error processing this file." */
  datatype ParseError = CouldNotProcessFile

  /** What a successful upload puts into the page: the strain label, the chromosome
      drop-down options and the track itself. */
  datatype Loaded<V> = Loaded(strain: string, options: seq<string>, track: seq<TrackRow<V>>)

  const Int64Min: int := -0x8000_0000_0000_0000
  const Int64Max: int := 0x7FFF_FFFF_FFFF_FFFF

  /** Whether `astype('int64')` accepts the position cell. */
  predicate PosCoercible(p: Option<int>) {
    p.Some? && Int64Min <= p.value <= Int64Max
  }

  /** The header must name exactly four columns, and every position must be an int64. */
  predicate Parsable<V>(table: RawTable<V>) {
    table.columns == 4 && forall i :: 0 <= i < |table.rows| ==> PosCoercible(table.rows[i].pos)
  }

  /** One row renamed: "chr" removed from the chromosome, position made an integer. */
  function NormalizeRow<V>(r: RawRow<V>): TrackRow<V>
    requires PosCoercible(r.pos)
  {
    TrackRow(RemoveChr(r.chrom), r.pos.value, r.w303, r.yjm)
  }

  function ChromColumn<V>(track: seq<TrackRow<V>>): (c: seq<string>)
    ensures |c| == |track|
  {
    seq(|track|, i requires 0 <= i < |track| => track[i].chrom)
  }

  /** `gen_chrom_dropdown`: all-or-nothing parse of the table, then the distinct chromosome
      names in order of first appearance. */
  function ParseTrack<V>(table: RawTable<V>): (res: Result<Parsed<V>, ParseError>)
    ensures res.Ok? <==> Parsable(table)
    ensures res.Ok? ==> |res.value.track| == |table.rows|
  {
    if !Parsable(table) then Err(CouldNotProcessFile)
    else
      var track := seq(|table.rows|, i requires 0 <= i < |table.rows| => NormalizeRow(table.rows[i]));
      Ok(Parsed(Dedup(ChromColumn(track)), track))
  }

  /** `name[:-5]`: the file name without its last five characters, or "" when it is
      shorter than that. */
  function StrainLabel(name: string): (strain: string)
    ensures |name| >= 5 ==> |strain| == |name| - 5 && strain + name[|name| - 5..] == name
    ensures |name| < 5 ==> strain == ""
  {
    if |name| >= 5 then name[..|name| - 5] else ""
  }

  /** `load_output`: nothing happens until there is content; then either the parse error
      or the label, options and track of the new upload, which replace the previous ones. */
  function LoadOutput<V>(content: Option<RawTable<V>>, name: string): (u: Update<Result<Loaded<V>, ParseError>>)
    ensures content.None? <==> u.NoUpdate?
    ensures content.Some? ==> (u.value.Ok? <==> Parsable(content.value))
    ensures content.Some? && u.value.Ok? ==>
      var p := ParseTrack(content.value).value;
      u.value.value == Loaded(StrainLabel(name), p.options, p.track)
  {
    if content.None? then NoUpdate
    else
      match ParseTrack(content.value)
      case Err(e) => NewValue(Err(e))
      case Ok(p) => NewValue(Ok(Loaded(StrainLabel(name), p.options, p.track)))
  }

  /** The rows `display_graph` plots for the chosen chromosome. */
  function ChromRows<V>(track: seq<TrackRow<V>>, chrom: string): seq<TrackRow<V>> {
    Filter(track, (r: TrackRow<V>) => r.chrom == chrom)
  }

  /** Each parsed row is its raw row with the chromosome cleaned and the position read. */
  lemma ParsedRows<V>(table: RawTable<V>, i: int)
    requires ParseTrack(table).Ok? && 0 <= i < |table.rows|
    ensures var row := ParseTrack(table).value.track[i];
      && row.chrom == RemoveChr(table.rows[i].chrom)
      && Some(row.pos) == table.rows[i].pos
      && row.w303 == table.rows[i].w303 && row.yjm == table.rows[i].yjm
  {
  }

  /** A chromosome cell written as "chr" followed by a name without "chr" is read as that
      name. */
  lemma ChrPrefixStripped<V>(table: RawTable<V>, i: int, name: string)
    requires ParseTrack(table).Ok? && 0 <= i < |table.rows|
    requires table.rows[i].chrom == "chr" + name && !ContainsChr(name)
    ensures ParseTrack(table).value.track[i].chrom == name
  {
    RemoveChrPrefix(name);
    RemoveChrNoOccurrence(name);
  }

  /** A chromosome written as one of the sixteen names, with or without a "chr" prefix, is
      read as that name, which the annotation table can then look up. */
  lemma ChromosomeNamesReadBack(c: string)
    requires c in Chrom2Id
    ensures RemoveChr("chr" + c) == c && RemoveChr(c) == c
  {
    assert forall i :: 0 <= i < |c| ==> c[i] in {'I', 'V', 'X'};
    assert !ContainsChr(c);
    RemoveChrNoOccurrence(c);
    RemoveChrPrefix(c);
  }

  /** The drop-down options are the chromosomes of the track, each exactly once, in the
      order in which they first appear. */
  lemma OptionsAreDistinctChromosomes<V>(table: RawTable<V>)
    requires ParseTrack(table).Ok?
    ensures var p := ParseTrack(table).value;
      && Distinct(p.options)
      && (forall c :: c in p.options ==> exists i :: 0 <= i < |p.track| && p.track[i].chrom == c)
      && (forall i :: 0 <= i < |p.track| ==> p.track[i].chrom in p.options)
      && (forall i, j :: 0 <= i < j < |p.options| ==>
            && p.options[i] in ChromColumn(p.track) && p.options[j] in ChromColumn(p.track)
            && IndexOf(ChromColumn(p.track), p.options[i]) < IndexOf(ChromColumn(p.track), p.options[j]))
  {
    var p := ParseTrack(table).value;
    var column := ChromColumn(p.track);
    DedupDistinct(column);
    DedupMembers(column);
    DedupFirstAppearanceOrder(column);
    forall c | c in p.options ensures exists i :: 0 <= i < |p.track| && p.track[i].chrom == c {
      var i := IndexOf(column, c);
      assert p.track[i].chrom == c;
    }
    forall i | 0 <= i < |p.track| ensures p.track[i].chrom in p.options {
      assert column[i] == p.track[i].chrom;
    }
  }

  /** The plot shows exactly the rows of the chosen chromosome. */
  lemma ChromRowsSelect<V>(track: seq<TrackRow<V>>, chrom: string)
    ensures forall r :: r in ChromRows(track, chrom) ==> r in track && r.chrom == chrom
    ensures forall r :: r in track && r.chrom == chrom ==> r in ChromRows(track, chrom)
  {
    FilterMembers(track, (r: TrackRow<V>) => r.chrom == chrom);
  }
}
