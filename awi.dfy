/**
  `AWIOrbitThickness`: the reader of AWI binary orbit files. The object is
  built in the order of its `__init__`: the orbit number from the file name,
  then `parse_content` (header, record count, column bindings, records,
  one attribute per bound name), then `construct_data_groups`, which fills
  the seven parameters every orbit-thickness data set has.

  The file is its byte content, the configuration is its ordered list of
  output keys, and the record value holding a time is turned into a Julian
  instant by a caller-supplied decoder (the float conversion is not modelled).
*/
module AwiOrbit {
  import opened Outcomes
  import opened Bytes
  import opened Calendar
  import opened Timestamps
  import opened BinaryHeader
  import opened RecordLayout
  import opened Filenames
  import opened Dataset

  /** What `np.squeeze` makes of a column: a one-record column becomes a 0-d array. */
  datatype Column = Vector(values: seq<Word64>) | Scalar(value: Word64)

  function Squeeze(values: seq<Word64>): (c: Column)
    ensures c.Scalar? <==> |values| == 1
    ensures c.Vector? ==> c.values == values
    ensures c.Scalar? ==> c.value == values[0]
  {
    if |values| == 1 then Scalar(values[0]) else Vector(values)
  }

  /** `np.ones(n, dtype=bool)` and `np.full(n, True)`: a mask of n set flags. */
  function AllTrue(n: nat): (mask: seq<bool>)
    ensures |mask| == n && forall i :: 0 <= i < n ==> mask[i]
  {
    seq(n, _ => true)
  }

  /** The data groups `construct_data_groups` reads after `time`, in its order. */
  const PARAMETER_TAGS: seq<string> := ["lon", "lat", "rho_i", "rho_s", "sd", "sit"]

  /** The seven parameters of an orbit-thickness data set. */
  datatype Parameters = Parameters(
    timestamp: seq<DateTime>, longitude: seq<Word64>, latitude: seq<Word64>, iceDensity: seq<Word64>,
    snowDensity: seq<Word64>, snowDepth: seq<Word64>, seaIceThickness: seq<Word64>)

  /** The parameter read from PARAMETER_TAGS[j]. */
  function ParameterColumn(p: Parameters, j: nat): seq<Word64>
    requires j < |PARAMETER_TAGS|
  {
    match j
    case 0 => p.longitude
    case 1 => p.latitude
    case 2 => p.iceDensity
    case 3 => p.snowDensity
    case 4 => p.snowDepth
    case _ => p.seaIceThickness
  }

  /** How many of the six names, in the order they are read, are bound before the first unbound one. */
  function BoundTags(registered: map<string, nat>): (n: nat)
    ensures n <= |PARAMETER_TAGS|
    ensures forall j :: 0 <= j < n ==> PARAMETER_TAGS[j] in registered
    ensures n < |PARAMETER_TAGS| ==> PARAMETER_TAGS[n] !in registered
  {
    if "lon" !in registered then 0
    else if "lat" !in registered then 1
    else if "rho_i" !in registered then 2
    else if "rho_s" !in registered then 3
    else if "sd" !in registered then 4
    else if "sit" !in registered then 5
    else 6
  }

  /**
    The parameters after the timestamps and the first k of the six other
    groups are assigned, one after another, over the values before: those
    k hold the columns their names are bound to, the rest are unchanged.
  */
  function PartlyConstructed(before: Parameters, stamps: seq<DateTime>, registered: map<string, nat>,
                             columns: seq<seq<Word64>>, k: nat): (p: Parameters)
    requires k <= |PARAMETER_TAGS|
    requires forall j :: 0 <= j < k ==> PARAMETER_TAGS[j] in registered && registered[PARAMETER_TAGS[j]] < |columns|
    ensures p.timestamp == stamps
    ensures forall j :: 0 <= j < k ==> ParameterColumn(p, j) == columns[registered[PARAMETER_TAGS[j]]]
    ensures forall j :: k <= j < |PARAMETER_TAGS| ==> ParameterColumn(p, j) == ParameterColumn(before, j)
  {
    Parameters(stamps,
      if k > 0 then columns[registered[PARAMETER_TAGS[0]]] else before.longitude,
      if k > 1 then columns[registered[PARAMETER_TAGS[1]]] else before.latitude,
      if k > 2 then columns[registered[PARAMETER_TAGS[2]]] else before.iceDensity,
      if k > 3 then columns[registered[PARAMETER_TAGS[3]]] else before.snowDensity,
      if k > 4 then columns[registered[PARAMETER_TAGS[4]]] else before.snowDepth,
      if k > 5 then columns[registered[PARAMETER_TAGS[5]]] else before.seaIceThickness)
  }

  /** Two parameter sets with the same timestamps and the same six columns are the same. */
  lemma ParametersByColumn(p: Parameters, q: Parameters)
    requires p.timestamp == q.timestamp
    requires forall j :: 0 <= j < |PARAMETER_TAGS| ==> ParameterColumn(p, j) == ParameterColumn(q, j)
    ensures p == q
  {
    assert ParameterColumn(p, 0) == ParameterColumn(q, 0) && ParameterColumn(p, 1) == ParameterColumn(q, 1);
    assert ParameterColumn(p, 2) == ParameterColumn(q, 2) && ParameterColumn(p, 3) == ParameterColumn(q, 3);
    assert ParameterColumn(p, 4) == ParameterColumn(q, 4) && ParameterColumn(p, 5) == ParameterColumn(q, 5);
  }

  /** `time` is bound, its column has other than one value and every value converts. */
  predicate TimesConvert(registered: map<string, nat>, columns: seq<seq<Word64>>, n: nat,
                         convert: Word64 -> Result<DateTime>)
    requires forall t :: t in registered ==> registered[t] < |columns|
  {
    "time" in registered && n != 1 && MapAll(convert, columns[registered["time"]]).Ok?
  }

  /** Every bound name refers to one of the columns, and every column holds n record values. */
  predicate WellBound(registered: map<string, nat>, columns: seq<seq<Word64>>, n: nat) {
    && (forall t :: t in registered ==> registered[t] < |columns|)
    && (forall c :: 0 <= c < |columns| ==> |columns[c]| == n)
  }

  /** `get_datagroup` on a table given by its columns. */
  function Datagroup(registered: map<string, nat>, columns: seq<seq<Word64>>, tag: string): (r: Result<Column>)
    requires forall t :: t in registered ==> registered[t] < |columns|
    ensures r.Ok? <==> tag in registered
    ensures r.Err? ==> r.error == UnknownDatagroup(tag)
    ensures r.Ok? ==> (r.value.Scalar? <==> |columns[registered[tag]]| == 1)
    ensures r.Ok? && r.value.Vector? ==> r.value.values == columns[registered[tag]]
    ensures r.Ok? && r.value.Scalar? ==> r.value.value == columns[registered[tag]][0]
  {
    if tag !in registered then Err(UnknownDatagroup(tag))
    else Ok(Squeeze(columns[registered[tag]]))
  }

  /**
    What `construct_data_groups` reads from a table of n records given by its
    columns: the `time` group converted record by record, then the six other
    groups in PARAMETER_TAGS order; the first read that raises decides the
    error.
  */
  function GroupsOf(registered: map<string, nat>, columns: seq<seq<Word64>>, n: nat,
                    convert: Word64 -> Result<DateTime>): (r: Result<Parameters>)
    requires WellBound(registered, columns, n)
    ensures r.Ok? ==> "time" in registered && n != 1 && |r.value.timestamp| == n
  {
    var time := Datagroup(registered, columns, "time");
    if time.Err? then Err(time.error)
    else if time.value.Scalar? then Err(ScalarIteration)
    else
      var stamps := MapAll(convert, time.value.values);
      if stamps.Err? then Err(stamps.error)
      else
        var lon := Datagroup(registered, columns, "lon");
        if lon.Err? then Err(lon.error)
        else
          var lat := Datagroup(registered, columns, "lat");
          if lat.Err? then Err(lat.error)
          else
            var rhoI := Datagroup(registered, columns, "rho_i");
            if rhoI.Err? then Err(rhoI.error)
            else
              var rhoS := Datagroup(registered, columns, "rho_s");
              if rhoS.Err? then Err(rhoS.error)
              else
                var sd := Datagroup(registered, columns, "sd");
                if sd.Err? then Err(sd.error)
                else
                  var sit := Datagroup(registered, columns, "sit");
                  if sit.Err? then Err(sit.error)
                  else
                    Ok(Parameters(stamps.value, lon.value.values, lat.value.values, rhoI.value.values,
                                  rhoS.value.values, sd.value.values, sit.value.values))
  }

  class AwiOrbitThickness {
    const filename: string
    /** The content of the file: every read of the source goes through it. */
    const file: seq<Byte>
    /** `list(self.file_def["output"])`: the output keys of the configuration, in order. */
    const keys: seq<string>
    var trackId: string
    var cs2OrbitId: string
    const orbit: int

    var lonLimit: Limits
    var latLimit: Limits
    var contentFlags: seq<int>

    var fileSize: int
    var nDatagroups: nat
    var nrecs: int
    var recordByteSize: nat

    var registered: map<string, nat>
    /** The `nrecs` x `n_datagroups` table of record values. */
    var data: array2<Word64>
    var inExport: seq<bool>
    var isInRoi: seq<bool>
    /** The attributes `_create_attributes` sets, one per bound data-group name. */
    var attributes: map<string, Column>

    var timestamp: seq<DateTime>
    var longitude: seq<Word64>
    var latitude: seq<Word64>
    var iceDensity: seq<Word64>
    var snowDensity: seq<Word64>
    var snowDepth: seq<Word64>
    var seaIceThickness: seq<Word64>

    /**
      The fields set by `OrbitThicknessBaseClass.__init__`, the file, its
      configuration and the orbit number `parse_filename` read from its name.
    */
    constructor (filename: string, file: seq<Byte>, keys: seq<string>, orbit: int)
      ensures this.filename == filename && this.file == file && this.keys == keys && this.orbit == orbit
      ensures trackId == NOT_AVAILABLE && cs2OrbitId == NOT_AVAILABLE
      ensures registered == map[] && attributes == map[]
      ensures timestamp == [] && longitude == [] && latitude == []
      ensures iceDensity == [] && snowDensity == [] && snowDepth == [] && seaIceThickness == []
    {
      this.filename := filename;
      this.file := file;
      this.keys := keys;
      this.orbit := orbit;
      trackId := NOT_AVAILABLE;
      cs2OrbitId := NOT_AVAILABLE;
      registered := map[];
      data := new Word64[0, 0];
      attributes := map[];
      timestamp := [];
      longitude := [];
      latitude := [];
      iceDensity := [];
      snowDensity := [];
      snowDepth := [];
      seaIceThickness := [];
    }

    /** The limits and content flags are those of the first 106 bytes of the file. */
    predicate HeaderRead()
      reads this`lonLimit, this`latLimit, this`contentFlags
    {
      DecodeHeader(file) == Ok(Header(lonLimit, latLimit, contentFlags))
    }

    /**
      `_parse_header`: the first 106 bytes, or the whole of a shorter file,
      read as the longitude limits, the latitude limits and the content
      flags, in that order. Each unpack that lacks bytes raises, leaving the
      limits assigned before it in place.
    */
    method ParseHeader() returns (r: Status)
      modifies this`lonLimit, this`latLimit, this`contentFlags
      ensures r.Pass? <==> |file| >= HEADER_SIZE
      ensures r.Fail? ==> r.error == ShortHeader && contentFlags == old(contentFlags)
      ensures r.Fail? ==> lonLimit == if |file| >= 2 * FLOAT32_SIZE then LimitsAt(file, 0) else old(lonLimit)
      ensures r.Fail? ==>
        latLimit == if |file| >= 4 * FLOAT32_SIZE then LimitsAt(file, 2 * FLOAT32_SIZE) else old(latLimit)
      ensures r.Pass? ==> HeaderRead()
    {
      var header := if |file| < HEADER_SIZE then file else file[..HEADER_SIZE];
      if |header| < 2 * FLOAT32_SIZE {
        return Fail(ShortHeader);
      }
      lonLimit := LimitsAt(header, 0);
      assert header[..2 * FLOAT32_SIZE] == file[..2 * FLOAT32_SIZE];
      if |header| < 4 * FLOAT32_SIZE {
        return Fail(ShortHeader);
      }
      latLimit := LimitsAt(header, 2 * FLOAT32_SIZE);
      assert header[2 * FLOAT32_SIZE .. 4 * FLOAT32_SIZE] == file[2 * FLOAT32_SIZE .. 4 * FLOAT32_SIZE];
      var h := DecodeHeader(file);
      if h.Err? {
        return Fail(h.error);
      }
      contentFlags := h.value.contentFlags;
      return Pass;
    }

    /** The size fields agree with the file and the active slots, and records exist to be counted. */
    predicate Counted()
      reads this`contentFlags, this`fileSize, this`nDatagroups, this`nrecs, this`recordByteSize
    {
      && fileSize == |file|
      && nDatagroups == |ActiveIndices(contentFlags)| > 0
      && RecordCount(|file|, nDatagroups) == Ok(nrecs)
      && recordByteSize == RecordSize(nDatagroups)
    }

    /** `_get_n_records`: file size, number of active groups, record count and size. */
    method GetNRecords() returns (r: Status)
      modifies this`fileSize, this`nDatagroups, this`nrecs, this`recordByteSize
      ensures fileSize == |file| && nDatagroups == |ActiveIndices(contentFlags)|
      ensures r.Pass? <==> nDatagroups > 0
      ensures r.Fail? ==> r.error == NoActiveDatagroups
      ensures r.Fail? ==> nrecs == old(nrecs) && recordByteSize == old(recordByteSize)
      ensures r.Pass? ==> Counted()
    {
      fileSize := |file|;
      nDatagroups := |ActiveIndices(contentFlags)|;
      var n := RecordCount(fileSize, nDatagroups);
      if n.Err? {
        return Fail(n.error);
      }
      nrecs := n.value;
      recordByteSize := RecordSize(nDatagroups);
      return Pass;
    }

    /**
      The loop of `_construct_datagroups`: binds the key of each active slot
      to its column; a slot past the end of the key list is an IndexError,
      raised after the slots before it are bound.
    */
    method BindDatagroups(active: seq<nat>) returns (r: Status)
      modifies this`registered
      ensures r.Pass? <==> KeysCover(keys, active)
      ensures r.Pass? ==> registered == Register(keys, active)
      ensures r.Fail? ==> var i := FirstUncoveredSlot(keys, active);
        r.error == KeyIndexOutOfRange(active[i]) && registered == Register(keys, active[..i])
    {
      registered := map[];
      var i := 0;
      while i < |active| && active[i] < |keys|
        invariant 0 <= i <= |active|
        invariant KeysCover(keys, active[..i])
        invariant registered == Register(keys, active[..i])
      {
        RegisterExtend(keys, active, i);
        registered := registered[keys[active[i]] := i];
        i := i + 1;
      }
      if i < |active| {
        FirstUncoveredSlotIsUnique(keys, active, i);
        return Fail(KeyIndexOutOfRange(active[i]));
      }
      assert active[..i] == active;
      return Pass;
    }

    /** Every bound name refers to a column of the table. */
    predicate Bound()
      reads this`registered, this`data
    {
      forall t :: t in registered ==> registered[t] < data.Length1
    }

    /** The names of the active slots are bound, the table and the export mask have one row per record. */
    predicate Tabled()
      reads this`contentFlags, this`nDatagroups, this`nrecs
      reads this`registered, this`data, this`inExport
    {
      && KeysCover(keys, ActiveIndices(contentFlags))
      && registered == Register(keys, ActiveIndices(contentFlags))
      && data.Length0 == nrecs && data.Length1 == nDatagroups
      && inExport == AllTrue(nrecs)
    }

    /**
      `_construct_datagroups`: binds the data-group names to their columns,
      then allocates the record table and the export mask.
    */
    method ConstructDatagroups() returns (r: Status)
      requires nrecs >= 0 && nDatagroups == |ActiveIndices(contentFlags)|
      modifies this`registered, this`data, this`inExport
      ensures var active := ActiveIndices(contentFlags);
        && (r.Pass? <==> KeysCover(keys, active))
        && (r.Fail? ==> var i := FirstUncoveredSlot(keys, active);
              r.error == KeyIndexOutOfRange(active[i]) && registered == Register(keys, active[..i]))
      ensures r.Pass? ==> Tabled() && Bound() && fresh(data)
      ensures r.Fail? ==> data == old(data) && inExport == old(inExport)
    {
      var active := ActiveIndices(contentFlags);
      r := BindDatagroups(active);
      if r.Fail? {
        return;
      }
      var table := new Word64[nrecs, nDatagroups];
      data := table;
      inExport := AllTrue(nrecs);
      assert registered == Register(keys, active);
    }

    /** The state `_parse_content` reads records into: counted records and a table sized for them. */
    predicate Laid()
      reads this`contentFlags, this`fileSize, this`nDatagroups, this`nrecs, this`recordByteSize
      reads this`data
    {
      Counted() && data.Length0 == nrecs && data.Length1 == nDatagroups
    }

    /** Each cell of the table holds its record's value for its data group. */
    predicate Loaded()
      requires Laid()
      reads this`contentFlags, this`fileSize, this`nDatagroups, this`nrecs, this`recordByteSize
      reads this`data, data
    {
      forall row, c :: 0 <= row < data.Length0 && 0 <= c < data.Length1 ==>
        data[row, c] == RecordValue(file, nDatagroups, row, c)
    }

    /**
      `_parse_content`: skips the header, then reads record after record into
      the rows of the table; every record starts in the region of interest.
    */
    method ParseRecords()
      requires Laid()
      modifies data, this`isInRoi
      ensures Loaded()
      ensures isInRoi == AllTrue(nrecs)
    {
      var k := nDatagroups;
      var pos := HEADER_SIZE;
      var i := 0;
      while i < nrecs
        invariant 0 <= i <= nrecs
        invariant pos == RecordOffset(i, k)
        invariant forall row, c :: 0 <= row < i && 0 <= c < k ==> data[row, c] == RecordValue(file, k, row, c)
      {
        RecordsFit(|file|, k, i);
        var row := Record(file, i, k);
        assert forall c :: 0 <= c < k ==> row[c] == RecordValue(file, k, i, c);
        StoreRow(i, row);
        pos := pos + recordByteSize;
        assert pos == RecordOffset(i + 1, k) by {
          assert (i + 1) * RecordSize(k) == i * RecordSize(k) + RecordSize(k);
        }
        i := i + 1;
      }
      isInRoi := AllTrue(nrecs);
    }

    /** `self.data[i, :] = ...`: row i of the table takes the values of one record; the other rows are kept. */
    method StoreRow(i: nat, row: seq<Word64>)
      requires i < data.Length0 && |row| == data.Length1
      modifies data
      ensures forall c :: 0 <= c < data.Length1 ==> data[i, c] == row[c]
      ensures forall r, c :: 0 <= r < data.Length0 && r != i && 0 <= c < data.Length1 ==> data[r, c] == old(data[r, c])
    {
      forall c | 0 <= c < data.Length1 {
        data[i, c] := row[c];
      }
    }

    /** `get_datagroup`: the squeezed column a data-group name is bound to; an unbound name is a KeyError. */
    function GetDatagroup(tag: string): (r: Result<Column>)
      requires Bound()
      reads this`registered, this`data, data
      ensures r.Ok? <==> tag in registered
      ensures r.Err? ==> r.error == UnknownDatagroup(tag)
      ensures r.Ok? && data.Length0 != 1 ==>
        && r.value.Vector? && |r.value.values| == data.Length0
        && forall row :: 0 <= row < data.Length0 ==> r.value.values[row] == data[row, registered[tag]]
      ensures r.Ok? && data.Length0 == 1 ==> r.value == Scalar(data[0, registered[tag]])
    {
      Datagroup(registered, TableColumns(), tag)
    }

    /** The table as its columns: column c holds data group c of every record. */
    function TableColumns(): (columns: seq<seq<Word64>>)
      reads this`data, data
      ensures |columns| == data.Length1
      ensures forall c :: 0 <= c < data.Length1 ==> |columns[c]| == data.Length0
      ensures forall c, row :: 0 <= c < data.Length1 && 0 <= row < data.Length0 ==> columns[c][row] == data[row, c]
    {
      var table := data;
      seq(table.Length1, c requires 0 <= c < table.Length1 reads table =>
        seq(table.Length0, row requires 0 <= row < table.Length0 reads table => table[row, c]))
    }

    /** The squeezed column of every bound name, as `get_datagroup` returns it. */
    function Columns(): map<string, Column>
      requires Bound()
      reads this`registered, this`data, data
    {
      map t | t in registered :: GetDatagroup(t).value
    }

    /** `_create_attributes`: one attribute per bound name, holding its data group. */
    method CreateAttributes()
      requires Bound()
      modifies this`attributes
      ensures attributes == old(attributes) + Columns()
    {
      attributes := SetEach(attributes, Columns());
    }

    /** The state the first three steps of `parse_content` leave: header, sizes, bindings and table. */
    predicate Prepared()
      reads this`lonLimit, this`latLimit, this`contentFlags
      reads this`fileSize, this`nDatagroups, this`nrecs, this`recordByteSize
      reads this`registered, this`data, this`inExport
    {
      HeaderRead() && Laid() && Tabled() && Bound()
    }

    /** The state after a successful `parse_content`. */
    predicate Parsed()
      reads this`lonLimit, this`latLimit, this`contentFlags
      reads this`fileSize, this`nDatagroups, this`nrecs, this`recordByteSize
      reads this`registered, this`data, data, this`inExport, this`isInRoi
    {
      Prepared() && Loaded() && isInRoi == AllTrue(nrecs)
    }

    /** A state change that writes none of the fields `Parsed` reads keeps it. */
    twostate lemma ParsedKept()
      requires old(Parsed())
      requires unchanged(this`lonLimit, this`latLimit, this`contentFlags)
      requires unchanged(this`fileSize, this`nDatagroups, this`nrecs, this`recordByteSize)
      requires unchanged(this`registered, this`data, this`inExport, this`isInRoi, old(data))
      ensures Parsed()
    {
    }

    /**
      The first three steps of `parse_content`: the header, the record count
      and the column bindings with the table they index; the first failing
      step decides the error.
    */
    method ReadLayout() returns (r: Status)
      modifies this`lonLimit, this`latLimit, this`contentFlags
      modifies this`fileSize, this`nDatagroups, this`nrecs, this`recordByteSize
      modifies this`registered, this`data, this`inExport
      ensures r == LayoutOutcome(file, keys)
      ensures r.Pass? ==> Prepared() && fresh(data)
    {
      r := ParseHeader();
      if r.Fail? {
        return;
      }
      r := CountAndTable();
    }

    /** `_get_n_records` and `_construct_datagroups` on a header already read. */
    method CountAndTable() returns (r: Status)
      requires HeaderRead()
      modifies this`fileSize, this`nDatagroups, this`nrecs, this`recordByteSize
      modifies this`registered, this`data, this`inExport
      ensures r == LayoutOutcome(file, keys)
      ensures r.Pass? ==> Laid() && Tabled() && Bound() && fresh(data)
    {
      ghost var active := ActiveIndices(contentFlags);
      assert active == ActiveIndices(DecodeHeader(file).value.contentFlags);
      r := GetNRecords();
      if r.Fail? {
        assert |active| == 0;
        return;
      }
      r := ConstructDatagroups();
      assert Counted();
    }

    /** `parse_content`: the five reading steps in order; the first failing one decides the error. */
    method ParseContent() returns (r: Status)
      modifies this`lonLimit, this`latLimit, this`contentFlags
      modifies this`fileSize, this`nDatagroups, this`nrecs, this`recordByteSize
      modifies this`registered, this`data, this`inExport, this`isInRoi, this`attributes
      ensures r == LayoutOutcome(file, keys)
      ensures r.Pass? ==> Parsed() && fresh(data) && attributes == old(attributes) + Columns()
    {
      r := ReadLayout();
      if r.Fail? {
        return;
      }
      ReadRecords();
    }

    /** The last two steps of `parse_content`: the records into the table, then one attribute per bound name. */
    method ReadRecords()
      requires Prepared()
      modifies data, this`isInRoi, this`attributes
      ensures Parsed() && attributes == old(attributes) + Columns()
    {
      ParseRecords();
      assert Prepared();
      label loaded:
      CreateAttributes();
      ParsedKept@loaded();
    }

    /** The values of a parameter are the column a data-group name is bound to. */
    predicate HoldsColumn(values: seq<Word64>, tag: string)
      reads this`registered, this`data, data
    {
      && tag in registered && registered[tag] < data.Length1
      && |values| == data.Length0
      && forall row :: 0 <= row < data.Length0 ==> values[row] == data[row, registered[tag]]
    }

    /**
      The timestamps of the `time` column converted record by record, or the
      first error converting them.
    */
    function TimeStamps(convert: Word64 -> Result<DateTime>): (r: Result<seq<DateTime>>)
      requires Bound() && "time" in registered
      reads this`registered, this`data, data
      ensures r.Ok? <==> forall row :: 0 <= row < data.Length0 ==> convert(data[row, registered["time"]]).Ok?
      ensures r.Ok? ==> |r.value| == data.Length0 && forall row :: 0 <= row < data.Length0 ==>
        r.value[row] == convert(data[row, registered["time"]]).value
    {
      MapAll(convert, TableColumns()[registered["time"]])
    }

    /** The `time` group is bound, can be iterated and converts without error. */
    predicate TimesRead(convert: Word64 -> Result<DateTime>)
      requires Bound()
      reads this`registered, this`data, data
    {
      TimesConvert(registered, TableColumns(), data.Length0, convert)
    }

    /** Every parameter `construct_data_groups` reads has a bound data group. */
    predicate ParametersBound()
      reads this`registered
    {
      "time" in registered && forall i :: 0 <= i < |PARAMETER_TAGS| ==> PARAMETER_TAGS[i] in registered
    }

    /** PARAMETER_TAGS[k] is the first of the six names that is not bound. */
    predicate FirstUnbound(k: int)
      reads this`registered
    {
      && 0 <= k < |PARAMETER_TAGS| && PARAMETER_TAGS[k] !in registered
      && forall j :: 0 <= j < k ==> PARAMETER_TAGS[j] in registered
    }

    /**
      What `construct_data_groups` reads: the timestamps of the `time` group
      and the six other parameters, or the first error. An unbound name
      raises a KeyError, a one-record table a TypeError (its squeezed time
      column cannot be iterated), a time that does not convert the error of
      its conversion.
    */
    function DataGroups(convert: Word64 -> Result<DateTime>): (r: Result<Parameters>)
      requires Bound()
      reads this`registered, this`data, data
      ensures r.Ok? ==> "time" in registered && data.Length0 != 1 && |r.value.timestamp| == data.Length0
    {
      GroupsOf(registered, TableColumns(), data.Length0, convert)
    }

    /**
      Once the content is parsed, what `construct_data_groups` reads is
      determined by the file and the configured keys alone.
    */
    lemma ParsedFromFile(convert: Word64 -> Result<DateTime>)
      requires Parsed()
      ensures LayoutOutcome(file, keys).Pass?
      ensures DataGroups(convert) == ContentOutcome(file, keys, convert)
    {
      var columns := FileColumns(file, nDatagroups, nrecs);
      assert TableColumns() == columns by {
        forall c | 0 <= c < nDatagroups ensures TableColumns()[c] == columns[c] {
          assert forall row :: 0 <= row < nrecs ==> TableColumns()[c][row] == columns[c][row];
        }
      }
    }

    /** The outcome of `construct_data_groups`, error by error, and the values it reads. */
    lemma DataGroupsMeaning(convert: Word64 -> Result<DateTime>)
      requires Bound()
      ensures DataGroups(convert).Ok? <==> TimesRead(convert) && ParametersBound()
      ensures "time" !in registered ==> DataGroups(convert) == Err(UnknownDatagroup("time"))
      ensures "time" in registered && data.Length0 == 1 ==> DataGroups(convert) == Err(ScalarIteration)
      ensures "time" in registered && data.Length0 != 1 && TimeStamps(convert).Err? ==>
        DataGroups(convert) == Err(TimeStamps(convert).error)
      ensures DataGroups(convert).Err? && TimesRead(convert) ==>
        exists k :: FirstUnbound(k) && DataGroups(convert).error == UnknownDatagroup(PARAMETER_TAGS[k])
      ensures DataGroups(convert).Err? && TimesRead(convert) ==>
        BoundTags(registered) < |PARAMETER_TAGS| && DataGroups(convert).error == UnknownDatagroup(PARAMETER_TAGS[BoundTags(registered)])
      ensures DataGroups(convert).Ok? ==> var p := DataGroups(convert).value;
        && p.timestamp == TimeStamps(convert).value
        && HoldsColumn(p.longitude, "lon") && HoldsColumn(p.latitude, "lat")
        && HoldsColumn(p.iceDensity, "rho_i") && HoldsColumn(p.snowDensity, "rho_s")
        && HoldsColumn(p.snowDepth, "sd") && HoldsColumn(p.seaIceThickness, "sit")
    {
      var columns := TableColumns();
      GroupsOfMeaning(registered, columns, data.Length0, convert);
      if "time" in registered && data.Length0 != 1 && TimeStamps(convert).Ok? {
        if BoundTags(registered) < |PARAMETER_TAGS| {
          assert FirstUnbound(BoundTags(registered));
        } else {
          var p := DataGroups(convert).value;
          forall j | 0 <= j < |PARAMETER_TAGS| ensures HoldsColumn(ParameterColumn(p, j), PARAMETER_TAGS[j]) {
            assert ParameterColumn(p, j) == columns[registered[PARAMETER_TAGS[j]]];
          }
          assert HoldsColumn(ParameterColumn(p, 0), "lon") && HoldsColumn(ParameterColumn(p, 1), "lat");
          assert HoldsColumn(ParameterColumn(p, 2), "rho_i") && HoldsColumn(ParameterColumn(p, 3), "rho_s");
          assert HoldsColumn(ParameterColumn(p, 4), "sd") && HoldsColumn(ParameterColumn(p, 5), "sit");
        }
      }
    }

    /** A state change that writes neither the bindings nor the table keeps what `construct_data_groups` reads. */
    twostate lemma DataGroupsKept(convert: Word64 -> Result<DateTime>)
      requires old(Bound()) && unchanged(this`registered, this`data, old(data))
      ensures Bound() && DataGroups(convert) == old(DataGroups(convert))
    {
    }

    /** The seven parameter fields, as one value. */
    function ParameterFields(): Parameters
      reads this`timestamp, this`longitude, this`latitude, this`iceDensity
      reads this`snowDensity, this`snowDepth, this`seaIceThickness
    {
      Parameters(timestamp, longitude, latitude, iceDensity, snowDensity, snowDepth, seaIceThickness)
    }

    /** The parameter fields hold what `construct_data_groups` reads. */
    predicate Constructed(convert: Word64 -> Result<DateTime>)
      requires Bound()
      reads this`registered, this`data, data, this`timestamp, this`longitude, this`latitude
      reads this`iceDensity, this`snowDensity, this`snowDepth, this`seaIceThickness
    {
      DataGroups(convert) == Ok(ParameterFields())
    }

    /**
      Once constructed, the timestamps are those of the `time` group and each
      of the six parameters holds the column of its data group.
    */
    lemma ConstructedHoldsColumns(convert: Word64 -> Result<DateTime>)
      requires Bound() && Constructed(convert)
      ensures TimesRead(convert) && timestamp == TimeStamps(convert).value
      ensures HoldsColumn(longitude, "lon") && HoldsColumn(latitude, "lat")
      ensures HoldsColumn(iceDensity, "rho_i") && HoldsColumn(snowDensity, "rho_s")
      ensures HoldsColumn(snowDepth, "sd") && HoldsColumn(seaIceThickness, "sit")
    {
    }

    /**
      `construct_data_groups`: the timestamps from the `time` group, each
      record's value converted by convert (`__init__` uses `_get_datetime` of
      the decoded Julian instant, see `Open`), then the six other parameters
      from their groups, one assignment after another. A read that raises
      stops it: the parameters assigned before it keep their new values, the
      others their old ones.
    */
    method ConstructDataGroups(convert: Word64 -> Result<DateTime>) returns (r: Status)
      requires Bound()
      modifies this`timestamp, this`longitude, this`latitude, this`iceDensity
      modifies this`snowDensity, this`snowDepth, this`seaIceThickness
      ensures r.Pass? <==> old(DataGroups(convert)).Ok?
      ensures r.Fail? ==> r.error == old(DataGroups(convert)).error
      ensures r.Pass? ==> ParameterFields() == old(DataGroups(convert)).value
      ensures r.Fail? && !old(TimesRead(convert)) ==> ParameterFields() == old(ParameterFields())
      ensures r.Fail? && old(TimesRead(convert)) ==>
        ParameterFields() == PartlyConstructed(old(ParameterFields()), old(TimeStamps(convert)).value,
                                               registered, old(TableColumns()), BoundTags(registered))
      ensures unchanged(this`lonLimit, this`latLimit, this`contentFlags, this`fileSize, this`nDatagroups, this`nrecs)
      ensures unchanged(this`recordByteSize, this`registered, this`data, this`inExport, this`isInRoi, data)
    {
      r := ConstructFromColumns(TableColumns(), data.Length0, convert);
    }

    /** `construct_data_groups` on the table given by its n-record columns. */
    method ConstructFromColumns(columns: seq<seq<Word64>>, n: nat, convert: Word64 -> Result<DateTime>) returns (r: Status)
      requires WellBound(registered, columns, n)
      modifies this`timestamp, this`longitude, this`latitude, this`iceDensity
      modifies this`snowDensity, this`snowDepth, this`seaIceThickness
      ensures r.Pass? <==> GroupsOf(registered, columns, n, convert).Ok?
      ensures r.Fail? ==> r.error == GroupsOf(registered, columns, n, convert).error
      ensures r.Pass? ==> ParameterFields() == GroupsOf(registered, columns, n, convert).value
      ensures r.Fail? && !TimesConvert(registered, columns, n, convert) ==> ParameterFields() == old(ParameterFields())
      ensures r.Fail? && TimesConvert(registered, columns, n, convert) ==>
        ParameterFields() == PartlyConstructed(old(ParameterFields()), MapAll(convert, columns[registered["time"]]).value,
                                               registered, columns, BoundTags(registered))
    {
      GroupsOfMeaning(registered, columns, n, convert);
      var time := Datagroup(registered, columns, "time");
      if time.Err? {
        return Fail(time.error);
      }
      if time.value.Scalar? {
        return Fail(ScalarIteration);
      }
      var stamps := MapAll(convert, time.value.values);
      if stamps.Err? {
        return Fail(stamps.error);
      }
      timestamp := stamps.value;
      r := ReadParameters(columns, n);
      if r.Pass? {
        ParametersByColumn(ParameterFields(), GroupsOf(registered, columns, n, convert).value);
      }
    }

    /**
      The six assignments of `construct_data_groups` after the timestamps,
      each from the squeezed column its name is bound to; the first unbound
      name is a KeyError that leaves the later parameters as they were.
    */
    method ReadParameters(columns: seq<seq<Word64>>, n: nat) returns (r: Status)
      requires WellBound(registered, columns, n) && n != 1
      modifies this`longitude, this`latitude, this`iceDensity, this`snowDensity, this`snowDepth, this`seaIceThickness
      ensures r.Pass? <==> BoundTags(registered) == |PARAMETER_TAGS|
      ensures r.Fail? ==> r.error == UnknownDatagroup(PARAMETER_TAGS[BoundTags(registered)])
      ensures ParameterFields() == PartlyConstructed(old(ParameterFields()), timestamp, registered, columns, BoundTags(registered))
    {
      var lon := Datagroup(registered, columns, "lon");
      if lon.Err? {
        return Fail(lon.error);
      }
      longitude := lon.value.values;
      var lat := Datagroup(registered, columns, "lat");
      if lat.Err? {
        return Fail(lat.error);
      }
      latitude := lat.value.values;
      var rhoI := Datagroup(registered, columns, "rho_i");
      if rhoI.Err? {
        return Fail(rhoI.error);
      }
      iceDensity := rhoI.value.values;
      var rhoS := Datagroup(registered, columns, "rho_s");
      if rhoS.Err? {
        return Fail(rhoS.error);
      }
      snowDensity := rhoS.value.values;
      var sd := Datagroup(registered, columns, "sd");
      if sd.Err? {
        return Fail(sd.error);
      }
      snowDepth := sd.value.values;
      var sit := Datagroup(registered, columns, "sit");
      if sit.Err? {
        return Fail(sit.error);
      }
      seaIceThickness := sit.value.values;
      return Pass;
    }

    /**
      The body of `__init__` after the file name is read: `parse_content`,
      then `construct_data_groups`.
    */
    method Load(convert: Word64 -> Result<DateTime>) returns (r: Status)
      modifies this`lonLimit, this`latLimit, this`contentFlags
      modifies this`fileSize, this`nDatagroups, this`nrecs, this`recordByteSize
      modifies this`registered, this`data, this`inExport, this`isInRoi, this`attributes
      modifies this`timestamp, this`longitude, this`latitude, this`iceDensity
      modifies this`snowDensity, this`snowDepth, this`seaIceThickness
      ensures LayoutOutcome(file, keys).Fail? ==> r == LayoutOutcome(file, keys)
      ensures LayoutOutcome(file, keys).Pass? ==>
        && Bound()
        && (r.Pass? <==> DataGroups(convert).Ok?)
        && (r.Fail? ==> r.error == DataGroups(convert).error)
      ensures r.Pass? <==> ContentOutcome(file, keys, convert).Ok?
      ensures r.Fail? ==> r.error == ContentOutcome(file, keys, convert).error
      ensures r.Pass? ==> Parsed() && Constructed(convert) && fresh(data)
      ensures r.Pass? ==> ParameterFields() == ContentOutcome(file, keys, convert).value
    {
      r := ParseContent();
      if r.Fail? {
        return;
      }
      label parsed:
      r := ConstructDataGroups(convert);
      ParsedKept@parsed();
      DataGroupsKept@parsed(convert);
      ParsedFromFile(convert);
    }

    /** The `n_records` property: the length of the longitude parameter. */
    function NRecords(): nat
      reads this`longitude
    {
      |longitude|
    }

    /**
      Once parsed and constructed, the number of records is the count the file
      size gives, and every parameter has one entry per record.
    */
    lemma NRecordsIsRecordCount(convert: Word64 -> Result<DateTime>)
      requires Parsed() && Constructed(convert)
      ensures NRecords() == nrecs && RecordCount(|file|, nDatagroups) == Ok(NRecords())
      ensures |timestamp| == |latitude| == |iceDensity| == |snowDensity| == NRecords()
      ensures |snowDepth| == |seaIceThickness| == NRecords()
    {
      ConstructedHoldsColumns(convert);
    }
  }

  /**
    How the first three steps of `parse_content` end: a file shorter than the
    header fails to unpack, no active slot makes the record count divide by
    zero, and an active slot without a configured key fails the binding loop.
  */
  function LayoutOutcome(file: seq<Byte>, keys: seq<string>): (r: Status)
    ensures r == Fail(ShortHeader) <==> |file| < HEADER_SIZE
    ensures r == Fail(NoActiveDatagroups) <==>
      |file| >= HEADER_SIZE && |ActiveIndices(DecodeHeader(file).value.contentFlags)| == 0
    ensures r.Fail? && r.error.KeyIndexOutOfRange? ==>
      |file| >= HEADER_SIZE && r.error.index in ActiveIndices(DecodeHeader(file).value.contentFlags)
      && r.error.index >= |keys|
    ensures r.Pass? ==> |file| >= HEADER_SIZE
    ensures r.Pass? ==>
      var active := ActiveIndices(DecodeHeader(file).value.contentFlags);
      |active| > 0 && KeysCover(keys, active) && RecordCount(|file|, |active|).Ok?
  {
    if |file| < HEADER_SIZE then Fail(ShortHeader)
    else
      var active := ActiveIndices(DecodeHeader(file).value.contentFlags);
      if |active| == 0 then Fail(NoActiveDatagroups)
      else if !KeysCover(keys, active) then Fail(KeyIndexOutOfRange(active[FirstUncoveredSlot(keys, active)]))
      else Pass
  }

  /**
    `construct_data_groups` read by read: an unbound `time` is a KeyError, a
    one-record table cannot be iterated, a time that does not convert stops
    it with that error, and then the first unbound name of the six is a
    KeyError; when every read succeeds the timestamps are the converted
    `time` column and each parameter is the column its name is bound to.
  */
  lemma GroupsOfMeaning(registered: map<string, nat>, columns: seq<seq<Word64>>, n: nat,
                        convert: Word64 -> Result<DateTime>)
    requires WellBound(registered, columns, n)
    ensures "time" !in registered ==> GroupsOf(registered, columns, n, convert) == Err(UnknownDatagroup("time"))
    ensures "time" in registered && n == 1 ==> GroupsOf(registered, columns, n, convert) == Err(ScalarIteration)
    ensures "time" in registered && n != 1 ==>
      var stamps := MapAll(convert, columns[registered["time"]]);
      var r := GroupsOf(registered, columns, n, convert);
      && (stamps.Err? ==> r == Err(stamps.error))
      && (stamps.Ok? && BoundTags(registered) < |PARAMETER_TAGS| ==>
            r == Err(UnknownDatagroup(PARAMETER_TAGS[BoundTags(registered)])))
      && (stamps.Ok? && BoundTags(registered) == |PARAMETER_TAGS| ==>
            && r.Ok? && r.value.timestamp == stamps.value
            && forall j :: 0 <= j < |PARAMETER_TAGS| ==> ParameterColumn(r.value, j) == columns[registered[PARAMETER_TAGS[j]]])
  {
    if "time" in registered && n != 1 {
      var stamps := MapAll(convert, columns[registered["time"]]);
      if stamps.Ok? && BoundTags(registered) == |PARAMETER_TAGS| {
        var p := GroupsOf(registered, columns, n, convert).value;
        assert p == Parameters(stamps.value, columns[registered["lon"]], columns[registered["lat"]],
          columns[registered["rho_i"]], columns[registered["rho_s"]], columns[registered["sd"]], columns[registered["sit"]]);
      }
    }
  }

  /**
    When `construct_data_groups` succeeds on a table of n records, every
    name it reads is bound, record row's timestamp is the conversion of its
    `time` value and each parameter is the column its name is bound to.
  */
  lemma GroupsOfColumns(registered: map<string, nat>, columns: seq<seq<Word64>>, n: nat,
                        convert: Word64 -> Result<DateTime>)
    requires WellBound(registered, columns, n) && GroupsOf(registered, columns, n, convert).Ok?
    ensures var p := GroupsOf(registered, columns, n, convert).value;
      && "time" in registered && BoundTags(registered) == |PARAMETER_TAGS| && |p.timestamp| == n
      && (forall row :: 0 <= row < n ==> convert(columns[registered["time"]][row]) == Ok(p.timestamp[row]))
      && (forall j :: 0 <= j < |PARAMETER_TAGS| ==> ParameterColumn(p, j) == columns[registered[PARAMETER_TAGS[j]]])
  {
    GroupsOfMeaning(registered, columns, n, convert);
  }

  /** The record values of a file of n records of k values each, as k columns. */
  function FileColumns(file: seq<Byte>, k: nat, n: nat): (columns: seq<seq<Word64>>)
    requires k > 0 && RecordCount(|file|, k) == Ok(n)
    ensures |columns| == k
    ensures forall c :: 0 <= c < k ==> |columns[c]| == n
    ensures forall c, row :: 0 <= c < k && 0 <= row < n ==> columns[c][row] == RecordValue(file, k, row, c)
  {
    seq(k, c requires 0 <= c < k => seq(n, row requires 0 <= row < n => RecordValue(file, k, row, c)))
  }

  /**
    The parameters an `AWIOrbitThickness` of a file and its configured keys
    ends up with, or the error its construction raises after the file name
    is read: a layout error, else the first error of `construct_data_groups`
    on the file's records.
  */
  function ContentOutcome(file: seq<Byte>, keys: seq<string>, convert: Word64 -> Result<DateTime>): (r: Result<Parameters>)
    ensures LayoutOutcome(file, keys).Fail? ==> r == Err(LayoutOutcome(file, keys).error)
    ensures r.Ok? ==> LayoutOutcome(file, keys).Pass?
    ensures r.Ok? ==>
      var k := |ActiveIndices(DecodeHeader(file).value.contentFlags)|;
      RecordCount(|file|, k) == Ok(|r.value.timestamp|)
  {
    var layout := LayoutOutcome(file, keys);
    if layout.Fail? then Err(layout.error)
    else
      var active := ActiveIndices(DecodeHeader(file).value.contentFlags);
      var n := RecordCount(|file|, |active|).value;
      GroupsOf(Register(keys, active), FileColumns(file, |active|, n), n, convert)
  }

  /**
    A successful construction reads the file as its format says: with k
    active slots there is one timestamp per record, and record row's
    timestamp is the conversion of its `time` value, the value at the slot
    position `time` is bound to.
  */
  lemma ContentFromRecords(file: seq<Byte>, keys: seq<string>, convert: Word64 -> Result<DateTime>)
    requires ContentOutcome(file, keys, convert).Ok?
    ensures LayoutOutcome(file, keys).Pass?
    ensures var active := ActiveIndices(DecodeHeader(file).value.contentFlags);
      var k, m, p := |active|, Register(keys, active), ContentOutcome(file, keys, convert).value;
      && k > 0 && RecordCount(|file|, k) == Ok(|p.timestamp|) && "time" in m
      && forall row :: 0 <= row < |p.timestamp| ==> convert(RecordValue(file, k, row, m["time"])) == Ok(p.timestamp[row])
  {
    var active := ActiveIndices(DecodeHeader(file).value.contentFlags);
    var k, m := |active|, Register(keys, active);
    var n := RecordCount(|file|, k).value;
    GroupsOfColumns(m, FileColumns(file, k, n), n, convert);
  }

  /**
    After a successful construction parameter j of the six other ones holds,
    for every record, the record's value at the slot position its name is
    bound to.
  */
  lemma ContentColumnsFromRecords(file: seq<Byte>, keys: seq<string>, convert: Word64 -> Result<DateTime>, j: nat)
    requires ContentOutcome(file, keys, convert).Ok? && j < |PARAMETER_TAGS|
    ensures LayoutOutcome(file, keys).Pass?
    ensures var active := ActiveIndices(DecodeHeader(file).value.contentFlags);
      var k, m, p := |active|, Register(keys, active), ContentOutcome(file, keys, convert).value;
      && k > 0 && RecordCount(|file|, k) == Ok(|p.timestamp|)
      && PARAMETER_TAGS[j] in m && |ParameterColumn(p, j)| == |p.timestamp|
      && forall row :: 0 <= row < |p.timestamp| ==> ParameterColumn(p, j)[row] == RecordValue(file, k, row, m[PARAMETER_TAGS[j]])
  {
    var active := ActiveIndices(DecodeHeader(file).value.contentFlags);
    var k, m := |active|, Register(keys, active);
    var n := RecordCount(|file|, k).value;
    GroupsOfColumns(m, FileColumns(file, k, n), n, convert);
  }

  /**
    As constructed by `__init__`, record row's timestamp is `_get_datetime`
    of the Julian instant its `time` value encodes.
  */
  lemma ContentTimestamps(file: seq<Byte>, keys: seq<string>, decodeTime: Word64 -> JulianInstant)
    requires ContentOutcome(file, keys, RecordTimestamp(decodeTime)).Ok?
    ensures LayoutOutcome(file, keys).Pass?
    ensures var active := ActiveIndices(DecodeHeader(file).value.contentFlags);
      var k, m, p := |active|, Register(keys, active), ContentOutcome(file, keys, RecordTimestamp(decodeTime)).value;
      && k > 0 && RecordCount(|file|, k) == Ok(|p.timestamp|) && "time" in m
      && forall row :: 0 <= row < |p.timestamp| ==>
           GetDatetime(decodeTime(RecordValue(file, k, row, m["time"]))) == Ok(p.timestamp[row])
  {
    ContentFromRecords(file, keys, RecordTimestamp(decodeTime));
  }

  /**
    Reading the layout succeeds exactly when the header is complete, some
    content flag is set, and every set flag's slot has a configured key.
  */
  lemma LayoutSucceedsExactly(file: seq<Byte>, keys: seq<string>)
    requires |file| >= HEADER_SIZE
    ensures LayoutOutcome(file, keys).Pass? <==>
      && (exists p :: 0 <= p < N_FLAGS && FlagAt(file, p) != 0)
      && (forall p :: 0 <= p < N_FLAGS && FlagAt(file, p) != 0 ==> p < |keys|)
  {
    var flags := DecodeHeader(file).value.contentFlags;
    DecodeHeaderFlags(file);
    SomeSlotActive(flags);
    ActiveSlotsCovered(flags, keys);
    assert forall p :: 0 <= p < N_FLAGS ==> flags[p] == FlagAt(file, p);
  }

  /** Some slot is active exactly when some flag is nonzero. */
  lemma SomeSlotActive(flags: seq<int>)
    ensures |ActiveIndices(flags)| > 0 <==> exists p :: 0 <= p < |flags| && flags[p] != 0
  {
    var active := ActiveIndices(flags);
    ActiveIndicesAreNonzeroSlots(flags);
    if |active| > 0 {
      assert flags[active[0]] != 0;
    }
    if exists p :: 0 <= p < |flags| && flags[p] != 0 {
      var p :| 0 <= p < |flags| && flags[p] != 0;
      assert p in active;
    }
  }

  /** Every active slot has a key exactly when every nonzero flag sits below the number of keys. */
  lemma ActiveSlotsCovered(flags: seq<int>, keys: seq<string>)
    ensures KeysCover(keys, ActiveIndices(flags)) <==> forall p :: 0 <= p < |flags| && flags[p] != 0 ==> p < |keys|
  {
    var active := ActiveIndices(flags);
    ActiveIndicesAreNonzeroSlots(flags);
    if KeysCover(keys, active) {
      forall p | 0 <= p < |flags| && flags[p] != 0 ensures p < |keys| {
        assert p in active;
        var i :| 0 <= i < |active| && active[i] == p;
      }
    }
  }

  /**
    The loop of `_create_attributes` on the attribute table: every entry of
    updates is stored, one key after another, in whatever order.
  */
  method SetEach<K, V>(table: map<K, V>, updates: map<K, V>) returns (r: map<K, V>)
    ensures r == table + updates
  {
    r := table;
    var todo := updates.Keys;
    ghost var done: set<K> := {};
    while todo != {}
      invariant PartlySet(table, updates, r, todo, done)
      decreases |todo|
    {
      var k :| k in todo;
      SetOneMore(table, updates, r, todo, done, k);
      r := r[k := updates[k]];
      todo := todo - {k};
      done := done + {k};
    }
    PartlySetAll(table, updates, r, done);
  }

  /** After the keys in done are stored, with todo still to go. */
  ghost predicate PartlySet<K, V>(table: map<K, V>, updates: map<K, V>, r: map<K, V>, todo: set<K>, done: set<K>) {
    && todo + done == updates.Keys && todo !! done
    && r == table + map k | k in done :: updates[k]
  }

  lemma SetOneMore<K, V>(table: map<K, V>, updates: map<K, V>, r: map<K, V>, todo: set<K>, done: set<K>, k: K)
    requires PartlySet(table, updates, r, todo, done) && k in todo
    ensures PartlySet(table, updates, r[k := updates[k]], todo - {k}, done + {k})
    ensures |todo - {k}| < |todo|
  {
    var before: map<K, V> := map j | j in done :: updates[j];
    var after: map<K, V> := map j | j in done + {k} :: updates[j];
    assert after == before[k := updates[k]];
  }

  lemma PartlySetAll<K, V>(table: map<K, V>, updates: map<K, V>, r: map<K, V>, done: set<K>)
    requires PartlySet(table, updates, r, {}, done)
    ensures r == table + updates
  {
    var all: map<K, V> := map j | j in done :: updates[j];
    assert all == updates;
  }

  /** `_get_datetime` of the record value holding a time, read as a Julian instant by decodeTime. */
  function RecordTimestamp(decodeTime: Word64 -> JulianInstant): (r: Word64 -> Result<DateTime>)
    ensures forall w :: r(w).Ok? ==> ValidDateTime(r(w).value) && MIN_YEAR <= r(w).value.date.year <= MAX_YEAR
    ensures forall w :: r(w).Err? ==> r(w).error == DateOverflow || r(w).error.YearOutOfRange?
  {
    var f := (w: Word64) => GetDatetime(decodeTime(w));
    assert forall w :: f(w) == GetDatetime(decodeTime(w));
    f
  }

  /**
    `AWIOrbitThickness(filename, config_filename)`: the orbit number from the
    file name, then the content and the parameters; any failing step makes
    the construction raise.
  */
  method Open(filename: string, file: seq<Byte>, keys: seq<string>, decodeTime: Word64 -> JulianInstant)
    returns (r: Result<AwiOrbitThickness>)
    ensures OrbitOfFilename(filename).Err? ==> r == Err(OrbitOfFilename(filename).error)
    ensures OrbitOfFilename(filename).Ok? && LayoutOutcome(file, keys).Fail? ==>
      r == Err(LayoutOutcome(file, keys).error)
    ensures OrbitOfFilename(filename).Ok? ==>
      && (r.Ok? <==> ContentOutcome(file, keys, RecordTimestamp(decodeTime)).Ok?)
      && (r.Err? ==> r.error == ContentOutcome(file, keys, RecordTimestamp(decodeTime)).error)
    ensures r.Ok? ==> r.value.ParameterFields() == ContentOutcome(file, keys, RecordTimestamp(decodeTime)).value
    ensures r.Ok? ==> var o := r.value;
      && fresh(o) && fresh(o.data)
      && o.filename == filename && o.file == file && o.keys == keys
      && OrbitOfFilename(filename) == Ok(o.orbit)
      && o.Parsed() && o.Constructed(RecordTimestamp(decodeTime))
  {
    var orbit := OrbitOfFilename(filename);
    if orbit.Err? {
      return Err(orbit.error);
    }
    var o := new AwiOrbitThickness(filename, file, keys, orbit.value);
    var s := o.Load(RecordTimestamp(decodeTime));
    if s.Fail? {
      return Err(s.error);
    }
    return Ok(o);
  }
}
