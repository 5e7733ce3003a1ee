/** The result display of the IP lookup window (IPQueryTool.display_results): which
    rows the result table holds, in which order, the network-type row after them, and
    whether the map pane is centred on the record's coordinates. Markup, styling and
    number rendering are abstracted: a row is a (label, value) pair. */
module Formatter {
  import opened AsciiText
  import opened Classifier

  /** One entry of the table's field list: the record key and the heading shown for it. */
  datatype Field = Field(key: string, heading: string)

  /** The fields the table shows, in the order it shows them. */
  const DisplayFields: seq<Field> := [
    Field("ip", "IP地址"),
    Field("country", "国家"),
    Field("country_code", "国家代码"),
    Field("region", "地区"),
    Field("region_code", "地区代码"),
    Field("city", "城市"),
    Field("latitude", "纬度"),
    Field("longitude", "经度"),
    Field("isp", "互联网服务提供商"),
    Field("organization", "组织"),
    Field("asn", "ASN"),
    Field("asn_organization", "ASN组织"),
    Field("continent_code", "大洲代码"),
    Field("timezone", "时区"),
    Field("offset", "时区偏移(秒)")
  ]

  /** The heading of the row that carries the network type. */
  const TypeHeading: string := "IP类型"

  function KeysOf(fields: seq<Field>): set<string>
  {
    set f | f in fields :: f.key
  }

  /** The keys the table knows about; any other key of the record is never shown. */
  const KnownKeys: set<string> := KeysOf(DisplayFields)

  predicate DistinctKeys(fields: seq<Field>)
  {
    forall i, j | 0 <= i < j < |fields| :: fields[i].key != fields[j].key
  }

  /** A table cell: a value shown as it came, or a coordinate shown with six decimals. */
  datatype Cell = Text(text: string) | SixDecimals(number: string)

  datatype Row = Row(heading: string, value: Cell)

  /** What the result pane shows: nothing yet, the "no data" notice, or a titled table. */
  datatype Content = Blank | NoData | Table(title: string, rows: seq<Row>)

  /** What the map pane shows: nothing yet, a map centred on a point (the source draws a
      box spanning ±0.05 degrees of latitude and longitude around it, with a marker), or
      the "no map data" notice. */
  datatype MapPane = Unset | CentredOn(lat: string, lon: string) | NoMapData

  /** The row of one present field; latitude and longitude go through `:.6f`. */
  function FieldRow(f: Field, value: string): (r: Row)
    ensures r.heading == f.heading
    ensures r.value.SixDecimals? <==> f.key in ["latitude", "longitude"]
    ensures r.value == Text(value) || r.value == SixDecimals(value)
  {
    Row(f.heading, if f.key == "latitude" || f.key == "longitude" then SixDecimals(value) else Text(value))
  }

  /** The fields, in their given order, whose key the record holds. */
  function PresentFields(fields: seq<Field>, data: GeoRecord): (p: seq<Field>)
    ensures forall f :: f in p <==> f in fields && f.key in data
  {
    if fields == [] then []
    else
      var last := fields[|fields| - 1];
      var init := fields[..|fields| - 1];
      assert fields == init + [last];
      PresentFields(init, data) + (if last.key in data then [last] else [])
  }

  /** One row per shown field, each holding that field's value from the record. */
  function RowsFor(shown: seq<Field>, data: GeoRecord): (rows: seq<Row>)
    requires forall f :: f in shown ==> f.key in data
  {
    seq(|shown|, i requires 0 <= i < |shown| => FieldRow(shown[i], data[shown[i].key]))
  }

  /** The row appended after the field rows: the classifier's label. */
  function ClassificationRow(data: GeoRecord): Row
  {
    Row(TypeHeading, Text(Label(Classify(data))))
  }

  /** The table rows for a non-empty record. */
  function ResultRows(data: GeoRecord): seq<Row>
  {
    TableRows(DisplayFields, data)
  }

  /** What the result pane shows after a lookup returned data. */
  function Shown(data: GeoRecord, title: string): (c: Content)
    ensures c == NoData <==> data == map[]
    ensures c != NoData ==> c == Table(title, ResultRows(data))
  {
    if data == map[] then NoData else Table(title, ResultRows(data))
  }

  /** What the map pane shows after a lookup returned a non-empty record. */
  function MapFor(data: GeoRecord): (m: MapPane)
    ensures m.CentredOn? <==> "latitude" in data && "longitude" in data
    ensures m.CentredOn? ==> m == CentredOn(data["latitude"], data["longitude"])
    ensures m == NoMapData || m.CentredOn?
  {
    if "latitude" in data && "longitude" in data
    then CentredOn(data["latitude"], data["longitude"])
    else NoMapData
  }

  // ---------------------------------------------------------------------------
  // The field table

  lemma DisplayFieldsDistinct()
    ensures DistinctKeys(DisplayFields)
  {
  }

  /** No field row can be mistaken for the classification row. */
  lemma TypeHeadingIsNoFieldHeading()
    ensures forall f | f in DisplayFields :: f.heading != TypeHeading
  {
  }

  // ---------------------------------------------------------------------------
  // Row selection

  /** The present fields keep the order of the field list: the j-th present field is
      the idx[j]-th field, and idx increases strictly. */
  lemma {:induction false} PresentFieldsInOrder(fields: seq<Field>, data: GeoRecord)
    returns (idx: seq<int>)
    ensures |idx| == |PresentFields(fields, data)|
    ensures forall j | 0 <= j < |idx| ::
      0 <= idx[j] < |fields| && PresentFields(fields, data)[j] == fields[idx[j]]
    ensures forall j1, j2 | 0 <= j1 < j2 < |idx| :: idx[j1] < idx[j2]
  {
    if fields == [] {
      idx := [];
    } else {
      var n := |fields| - 1;
      var init := fields[..n];
      idx := PresentFieldsInOrder(init, data);
      if fields[n].key in data {
        idx := idx + [n];
      }
    }
  }

  /** With distinct keys, one field is shown per key that both the list and the record
      hold. */
  lemma {:induction false} PresentFieldsCount(fields: seq<Field>, data: GeoRecord)
    requires DistinctKeys(fields)
    ensures |PresentFields(fields, data)| == |KeysOf(fields) * data.Keys|
  {
    if fields != [] {
      var n := |fields| - 1;
      var init, last := fields[..n], fields[n];
      LastKeyIsNew(fields);
      PresentFieldsCount(init, data);
      CountStep(KeysOf(init), last.key, data.Keys);
    }
  }

  /** Adding a new key to a key set adds one common key exactly when the record has it. */
  lemma CountStep(keys: set<string>, key: string, present: set<string>)
    requires key !in keys
    ensures |(keys + {key}) * present| == |keys * present| + (if key in present then 1 else 0)
  {
    if key in present {
      assert (keys + {key}) * present == (keys * present) + {key};
    } else {
      assert (keys + {key}) * present == keys * present;
    }
  }

  /** Splitting the last field off a list with distinct keys. */
  lemma LastKeyIsNew(fields: seq<Field>)
    requires DistinctKeys(fields) && fields != []
    ensures DistinctKeys(fields[..|fields| - 1])
    ensures KeysOf(fields) == KeysOf(fields[..|fields| - 1]) + {fields[|fields| - 1].key}
    ensures fields[|fields| - 1].key !in KeysOf(fields[..|fields| - 1])
  {
    var n := |fields| - 1;
    var init, last := fields[..n], fields[n];
    assert fields == init + [last];
    forall f | f in init
      ensures f.key != last.key
    {
      var i :| 0 <= i < n && init[i] == f;
    }
  }

  /** A key the field list does not name has no effect on which fields are shown. */
  lemma {:induction false} PresentFieldsIgnoreOtherKeys(fields: seq<Field>, data: GeoRecord, key: string, value: string)
    requires key !in KeysOf(fields)
    ensures PresentFields(fields, data[key := value]) == PresentFields(fields, data)
  {
    if fields != [] {
      var n := |fields| - 1;
      assert fields[n] in fields;
      assert KeysOf(fields[..n]) <= KeysOf(fields);
      PresentFieldsIgnoreOtherKeys(fields[..n], data, key, value);
    }
  }

  /** No field is shown when the record holds none of the list's keys. */
  lemma {:induction false} PresentFieldsNoneKnown(fields: seq<Field>, data: GeoRecord)
    requires data.Keys !! KeysOf(fields)
    ensures PresentFields(fields, data) == []
  {
    if fields != [] {
      var n := |fields| - 1;
      assert fields[n] in fields;
      assert KeysOf(fields[..n]) <= KeysOf(fields);
      PresentFieldsNoneKnown(fields[..n], data);
    }
  }

  /** The rows for one field list: a row per present field, then the classification. */
  function TableRows(fields: seq<Field>, data: GeoRecord): seq<Row>
  {
    RowsFor(PresentFields(fields, data), data) + [ClassificationRow(data)]
  }

  lemma {:induction false} TableRowsShape(fields: seq<Field>, data: GeoRecord)
    requires DistinctKeys(fields)
    requires forall f | f in fields :: f.heading != TypeHeading
    ensures |TableRows(fields, data)| == |KeysOf(fields) * data.Keys| + 1
    ensures TableRows(fields, data)[|TableRows(fields, data)| - 1] == ClassificationRow(data)
    ensures forall i | 0 <= i < |TableRows(fields, data)| - 1 :: TableRows(fields, data)[i].heading != TypeHeading
    ensures forall f | f in fields && f.key in data :: FieldRow(f, data[f.key]) in TableRows(fields, data)
  {
    var p := PresentFields(fields, data);
    var rows := TableRows(fields, data);
    PresentFieldsCount(fields, data);
    forall i | 0 <= i < |rows| - 1
      ensures rows[i].heading != TypeHeading
    {
      assert rows[i] == FieldRow(p[i], data[p[i].key]);
      assert p[i] in p;
    }
    forall f | f in fields && f.key in data
      ensures FieldRow(f, data[f.key]) in rows
    {
      assert f in p;
      var i :| 0 <= i < |p| && p[i] == f;
      assert rows[i] == FieldRow(f, data[f.key]);
    }
  }

  /** Result table for a non-empty record: one row per known key the record holds, then
      exactly one classification row, so the row count is the number of those keys plus
      one; every present known key gets its row with the record's value. */
  lemma ResultRowsShape(data: GeoRecord)
    ensures |ResultRows(data)| == |KnownKeys * data.Keys| + 1
    ensures ResultRows(data)[|ResultRows(data)| - 1] == ClassificationRow(data)
    ensures forall i | 0 <= i < |ResultRows(data)| - 1 :: ResultRows(data)[i].heading != TypeHeading
    ensures forall f | f in DisplayFields && f.key in data :: FieldRow(f, data[f.key]) in ResultRows(data)
  {
    DisplayFieldsDistinct();
    TypeHeadingIsNoFieldHeading();
    TableRowsShape(DisplayFields, data);
  }

  /** The field rows follow the declared field order: the j-th row is the row of the
      idx[j]-th declared field, that field's key is in the record, and idx increases
      strictly. */
  lemma ResultRowsInDeclaredOrder(data: GeoRecord) returns (idx: seq<int>)
    ensures |idx| == |ResultRows(data)| - 1
    ensures forall j | 0 <= j < |idx| ::
      0 <= idx[j] < |DisplayFields| && DisplayFields[idx[j]].key in data &&
      ResultRows(data)[j] == FieldRow(DisplayFields[idx[j]], data[DisplayFields[idx[j]].key])
    ensures forall j1, j2 | 0 <= j1 < j2 < |idx| :: idx[j1] < idx[j2]
    ensures forall i | 0 <= i < |DisplayFields| && DisplayFields[i].key in data :: i in idx
  {
    var p := PresentFields(DisplayFields, data);
    idx := PresentFieldsInOrder(DisplayFields, data);
    forall j | 0 <= j < |idx|
      ensures DisplayFields[idx[j]].key in data
    {
      assert p[j] in p;
    }
    DisplayFieldsDistinct();
    EveryPresentFieldIndexed(DisplayFields, data, idx);
  }

  /** With distinct keys, the index of every field whose key the record holds is among
      the indices of the selected fields. */
  lemma EveryPresentFieldIndexed(fields: seq<Field>, data: GeoRecord, idx: seq<int>)
    requires DistinctKeys(fields)
    requires |idx| == |PresentFields(fields, data)|
    requires forall j | 0 <= j < |idx| ::
      0 <= idx[j] < |fields| && PresentFields(fields, data)[j] == fields[idx[j]]
    ensures forall i | 0 <= i < |fields| && fields[i].key in data :: i in idx
  {
    var p := PresentFields(fields, data);
    forall i | 0 <= i < |fields| && fields[i].key in data
      ensures i in idx
    {
      assert fields[i] in fields;
      var j :| 0 <= j < |p| && p[j] == fields[i];
      assert fields[idx[j]].key == fields[i].key;
      assert idx[j] == i;
    }
  }

  /** The keys the classifier and the map pane read are known keys. */
  lemma ReadKeysAreKnown()
    ensures forall key | key in ClassifiedKeys :: key in KnownKeys
    ensures "latitude" in KnownKeys && "longitude" in KnownKeys
  {
    assert DisplayFields[6].key == "latitude";
    assert DisplayFields[7].key == "longitude";
    assert DisplayFields[8].key == "isp";
    assert DisplayFields[9].key == "organization";
    assert DisplayFields[11].key == "asn_organization";
  }

  /** Keys outside the field list are ignored: adding one to a record changes neither the
      rows nor the map pane. */
  lemma UnknownKeysIgnored(data: GeoRecord, key: string, value: string)
    requires key !in KnownKeys
    ensures ResultRows(data[key := value]) == ResultRows(data)
    ensures MapFor(data[key := value]) == MapFor(data)
  {
    ReadKeysAreKnown();
    TableRowsIgnoreOtherKeys(DisplayFields, data, key, value);
  }

  lemma TableRowsIgnoreOtherKeys(fields: seq<Field>, data: GeoRecord, key: string, value: string)
    requires key !in KeysOf(fields) && key !in ClassifiedKeys
    ensures TableRows(fields, data[key := value]) == TableRows(fields, data)
  {
    var d := data[key := value];
    PresentFieldsIgnoreOtherKeys(fields, data, key, value);
    var p := PresentFields(fields, data);
    forall i | 0 <= i < |p|
      ensures d[p[i].key] == data[p[i].key]
    {
      assert p[i] in p;
    }
    assert RowsFor(p, d) == RowsFor(p, data);
    assert SearchText(d) == SearchText(data);
  }

  /** A record that holds only keys outside the field list is not empty: it is shown as
      a table whose only row is the classification row, and that says Unknown. */
  lemma OnlyUnknownKeys(data: GeoRecord, title: string)
    requires data != map[]
    requires data.Keys !! KnownKeys
    ensures Shown(data, title) == Table(title, [Row(TypeHeading, Text(Label(Unknown)))])
  {
    ReadKeysAreKnown();
    assert "isp" !in data && "organization" !in data && "asn_organization" !in data;
    NoClassifiedFieldsIsUnknown(data);
    PresentFieldsNoneKnown(DisplayFields, data);
    assert RowsFor([], data) == [];
    assert ResultRows(data) == [ClassificationRow(data)];
  }

  // ---------------------------------------------------------------------------
  // The window

  /** The table-building loop of display_results: walk the field list in order, add a
      row for each key the record holds, then add the classification row. */
  method BuildRows(data: GeoRecord) returns (rows: seq<Row>)
    ensures rows == ResultRows(data)
  {
    rows := SelectRows(DisplayFields, data);
    var ipType := Classify(data);
    rows := rows + [Row(TypeHeading, Text(Label(ipType)))];
  }

  /** The `for key, label in fields` loop: one row per field whose key the record holds,
      in the order of the list. */
  method SelectRows(fields: seq<Field>, data: GeoRecord) returns (rows: seq<Row>)
    ensures rows == RowsFor(PresentFields(fields, data), data)
  {
    rows := [];
    ghost var shown: seq<Field> := [];
    for i := 0 to |fields|
      invariant shown == PresentFields(fields[..i], data)
      invariant rows == RowsFor(shown, data)
    {
      var f := fields[i];
      assert fields[..i + 1][..i] == fields[..i];
      if f.key in data {
        var value := data[f.key];
        RowsForAppend(shown, f, data);
        rows := rows + [FieldRow(f, value)];
        shown := shown + [f];
      }
    }
    assert fields[..|fields|] == fields;
  }

  lemma RowsForAppend(shown: seq<Field>, f: Field, data: GeoRecord)
    requires forall g :: g in shown ==> g.key in data
    requires f.key in data
    ensures RowsFor(shown + [f], data) == RowsFor(shown, data) + [FieldRow(f, data[f.key])]
  {
  }

  /** The two output panes of the lookup window. */
  class ResultWindow {
    var resultText: Content
    var mapView: MapPane

    constructor ()
      ensures resultText == Blank && mapView == Unset
    {
      resultText := Blank;
      mapView := Unset;
    }

    /** IPQueryTool.display_results: an empty record puts up the "no data" notice and
        leaves the map pane as it was; otherwise the table is shown and the map pane is
        centred on the record's point when it has both coordinates, else shows the
        "no map data" notice. */
    method DisplayResults(data: GeoRecord, title: string)
      modifies this
      ensures resultText == Shown(data, title)
      ensures data == map[] <==> resultText == NoData
      ensures data == map[] ==> mapView == old(mapView)
      ensures data != map[] ==> mapView == MapFor(data)
      ensures mapView.CentredOn? <==>
        if data == map[] then old(mapView).CentredOn? else "latitude" in data && "longitude" in data
    {
      if |data| == 0 {
        resultText := NoData;
        return;
      }
      var rows := BuildRows(data);
      resultText := Table(title, rows);
      if "latitude" in data && "longitude" in data {
        mapView := CentredOn(data["latitude"], data["longitude"]);
      } else {
        mapView := NoMapData;
      }
    }
  }
}
