/**
 * `DataStorage`: the `scraped_data` table as an append-only sequence of rows.
 * Image and link lists are flattened with `", ".join` on the way in and
 * rebuilt with `.split(", ")` on the way out.
 */
module Storage {
  import opened Strings
  import opened Records

  /** The delimiter list fields are joined with and split at. */
  const Delimiter := ", "

  /** A table row: an auto-assigned id, the URL, the text and the two flattened lists. */
  datatype StoredRow = StoredRow(id: nat, url: string, text: string, images: string, links: string)

  /** The row stored for `record` under `id`. */
  function ToRow(id: nat, record: ScrapedRecord): StoredRow {
    StoredRow(id, record.url, record.text, Join(record.images, Delimiter), Join(record.links, Delimiter))
  }

  /** The record rebuilt from a row. */
  function FromRow(row: StoredRow): ScrapedRecord {
    ScrapedRecord(row.url, row.text, Split(row.images, Delimiter), Split(row.links, Delimiter))
  }

  /** The rows stored for `records`, numbered from `firstId` on. */
  function NewRows(firstId: nat, records: seq<ScrapedRecord>): (rows: seq<StoredRow>)
    ensures |rows| == |records|
    ensures forall j :: 0 <= j < |records| ==>
      rows[j].id == firstId + j && rows[j].url == records[j].url && rows[j].text == records[j].text
    ensures forall j :: 0 <= j < |records| ==>
      rows[j].images == Join(records[j].images, Delimiter) && rows[j].links == Join(records[j].links, Delimiter)
  {
    seq(|records|, j requires 0 <= j < |records| => ToRow(firstId + j, records[j]))
  }

  /** A list that survives flattening: not empty, and no element contains the delimiter. */
  predicate RoundTrips(xs: seq<string>) {
    xs != [] && forall k :: 0 <= k < |xs| ==> !Contains(xs[k], Delimiter)
  }

  /** An element without the delimiter ends where the joining delimiter begins. */
  lemma DelimiterDelimits(x: string)
    requires !Contains(x, Delimiter)
    ensures Delimits(Delimiter, x)
  {
    forall j: nat | j < |x| ensures !OccursAt(x + Delimiter, Delimiter, j) {
      if j + |Delimiter| <= |x| {
        assert !OccursAt(x, Delimiter, j);
        assert (x + Delimiter)[j..j + |Delimiter|] == x[j..j + |Delimiter|];
      } else {
        assert (x + Delimiter)[j + 1] == ',';
      }
    }
  }

  /** Flattening then rebuilding a list gives it back exactly when the list round-trips. */
  lemma ListRoundTrip(xs: seq<string>)
    ensures Split(Join(xs, Delimiter), Delimiter) == xs <==> RoundTrips(xs)
  {
    if RoundTrips(xs) {
      forall k | 0 <= k < |xs| ensures Delimits(Delimiter, xs[k]) {
        DelimiterDelimits(xs[k]);
      }
      SplitJoin(xs, Delimiter);
    }
    SplitNonEmpty(Join(xs, Delimiter), Delimiter, 0);
    SplitPartsFree(Join(xs, Delimiter), Delimiter, 0);
  }

  /** The empty list is flattened to `""`, which is rebuilt as `[""]`. */
  lemma EmptyListComesBackAsEmptyString()
    ensures Join([], Delimiter) == ""
    ensures Split("", Delimiter) == [""]
    ensures Split(Join([], Delimiter), Delimiter) != []
  {
    assert Find("", Delimiter, 0) == -1;
  }

  /** An element containing the delimiter is rebuilt as two elements. */
  lemma DelimiterInElementSplits()
    ensures Split(Join(["a, b"], Delimiter), Delimiter) == ["a", "b"]
  {
    var s := "a, b";
    assert Join(["a, b"], Delimiter) == s;
    assert s[0..2][1] == ',';
    assert !OccursAt(s, Delimiter, 0);
    assert s[1..3] == Delimiter;
    assert Find(s, Delimiter, 1) == 1;
    assert Find(s, Delimiter, 0) == 1;
    assert Find(s, Delimiter, 3) == -1;
    assert s[0..1] == "a" && s[3..] == "b";
    assert SplitFrom(s, Delimiter, 0) == ["a"] + SplitFrom(s, Delimiter, 3);
  }

  /** A record comes back from its row unchanged exactly when both of its lists round-trip. */
  lemma RowRoundTrip(id: nat, record: ScrapedRecord)
    ensures FromRow(ToRow(id, record)) == record <==> RoundTrips(record.images) && RoundTrips(record.links)
  {
    ListRoundTrip(record.images);
    ListRoundTrip(record.links);
  }

  /** Each stored record comes back from its row exactly when both of its lists round-trip. */
  lemma NewRowsComeBack(firstId: nat, records: seq<ScrapedRecord>)
    ensures forall j :: 0 <= j < |records| ==>
      (FromRow(NewRows(firstId, records)[j]) == records[j] <==> RoundTrips(records[j].images) && RoundTrips(records[j].links))
  {
    forall j | 0 <= j < |records|
      ensures FromRow(NewRows(firstId, records)[j]) == records[j] <==> RoundTrips(records[j].images) && RoundTrips(records[j].links)
    {
      RowRoundTrip(firstId + j, records[j]);
    }
  }

  /** A rebuilt record never has an empty image or link list, whatever was stored. */
  lemma RebuiltListsNonEmpty(row: StoredRow)
    ensures FromRow(row).images != [] && FromRow(row).links != []
  {
    SplitNonEmpty(row.images, Delimiter, 0);
    SplitNonEmpty(row.links, Delimiter, 0);
  }

  /** Storing a retrieved record again reproduces its row. */
  lemma RowRestored(row: StoredRow)
    ensures ToRow(row.id, FromRow(row)) == row
  {
    JoinSplit(row.images, Delimiter);
    JoinSplit(row.links, Delimiter);
  }

  class DataStorage {
    const dbName: string
    var rows: seq<StoredRow>

    /** Ids are assigned 1, 2, 3, ... in insertion order; rows are never deleted. */
    ghost predicate Valid()
      reads this
    {
      forall i :: 0 <= i < |rows| ==> rows[i].id == i + 1
    }

    constructor (dbName: string)
      ensures Valid() && this.dbName == dbName && rows == []
    {
      this.dbName := dbName;
      rows := [];
    }

    /**
     * One new row per record, in order, with URL and text unchanged and the
     * lists flattened; earlier rows are untouched. The rows are collected in
     * a session and become part of the table in a single commit.
     */
    method StoreData(records: seq<ScrapedRecord>)
      requires Valid()
      modifies this
      ensures Valid()
      ensures rows == old(rows) + NewRows(old(|rows|) + 1, records)
      ensures forall j :: 0 <= j < |records| ==>
        (RetrieveData()[old(|rows|) + j] == records[j] <==> RoundTrips(records[j].images) && RoundTrips(records[j].links))
    {
      var session: seq<StoredRow> := [];
      for k := 0 to |records|
        invariant |session| == k
        invariant forall j :: 0 <= j < k ==> session[j] == ToRow(|rows| + 1 + j, records[j])
      {
        session := session + [ToRow(|rows| + 1 + k, records[k])];
      }
      ghost var before := |rows|;
      assert session == NewRows(before + 1, records);
      rows := rows + session;
      NewRowsComeBack(before + 1, records);
      forall i | before <= i < |rows|
        ensures RetrieveData()[i] == FromRow(NewRows(before + 1, records)[i - before])
      {
        assert rows[i] == session[i - before];
      }
    }

    /**
     * Every row, in table order, rebuilt as a record: URL and text as
     * stored, and each list split at the delimiter.
     */
    function RetrieveData(): (data: seq<ScrapedRecord>)
      reads this
      ensures |data| == |rows|
      ensures forall i :: 0 <= i < |rows| ==> data[i] == FromRow(rows[i])
      ensures forall i :: 0 <= i < |rows| ==> data[i].url == rows[i].url && data[i].text == rows[i].text
    {
      var stored := rows;
      seq(|stored|, i requires 0 <= i < |stored| => FromRow(stored[i]))
    }
  }
}
