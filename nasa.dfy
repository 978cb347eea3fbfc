/**
  `NASAJPLOrbitThickness`: the reader of NASA-JPL text files. After three
  header lines every line is one record; `parse` allocates one array per
  parameter, with as many entries as there are record lines, fills them line
  by line and then sets every ice density to the fixed default, since this
  source does not report it.

  The file is its list of lines. Turning one line into numbers and a datetime
  (`float` of each token, `datetime` plus `timedelta`) is a caller-supplied
  reader: it yields the values of a line or the error converting it raises.
*/
module NasaJplOrbit {
  import opened Outcomes
  import opened Calendar
  import opened Dataset

  /** `n_header_lines`: the lines before the first record. */
  const N_HEADER_LINES: nat := 3
  /** `default_ice_density`, in kg/m^3. */
  const DEFAULT_ICE_DENSITY: real := 920.0

  /** The values one record line carries, in the order the parameters are stored. */
  datatype Row = Row(timestamp: DateTime, latitude: real, longitude: real,
                     seaIceThickness: real, snowDepth: real, snowDensity: real)

  /** `content[n_header_lines:]`: the record lines; a file of header lines only has none. */
  function RecordLines(lines: seq<string>): (r: seq<string>)
    ensures |r| == if |lines| <= N_HEADER_LINES then 0 else |lines| - N_HEADER_LINES
    ensures forall i :: 0 <= i < |r| ==> r[i] == lines[N_HEADER_LINES + i]
    ensures |lines| >= N_HEADER_LINES ==> lines == lines[..N_HEADER_LINES] + r
  {
    if |lines| <= N_HEADER_LINES then [] else lines[N_HEADER_LINES..]
  }

  class NasaJplOrbitThickness {
    const filename: string
    var trackId: string
    var cs2OrbitId: string

    var timestamp: array<DateTime>
    var longitude: array<real>
    var latitude: array<real>
    var iceDensity: array<real>
    var snowDensity: array<real>
    var snowDepth: array<real>
    var seaIceThickness: array<real>

    /**
      `OrbitThicknessBaseClass.__init__` and the file name; the parameters,
      `None` in the source, start out as empty arrays.
    */
    constructor (filename: string)
      ensures this.filename == filename
      ensures trackId == NOT_AVAILABLE && cs2OrbitId == NOT_AVAILABLE
      ensures timestamp.Length == 0 && longitude.Length == 0 && latitude.Length == 0 && iceDensity.Length == 0
      ensures snowDensity.Length == 0 && snowDepth.Length == 0 && seaIceThickness.Length == 0
    {
      this.filename := filename;
      trackId := NOT_AVAILABLE;
      cs2OrbitId := NOT_AVAILABLE;
      timestamp := new DateTime[0];
      longitude := new real[0];
      latitude := new real[0];
      iceDensity := new real[0];
      snowDensity := new real[0];
      snowDepth := new real[0];
      seaIceThickness := new real[0];
    }

    /** The six numeric parameters are six different arrays. */
    predicate Separate()
      reads this
    {
      && longitude != latitude && longitude != iceDensity && longitude != snowDensity
      && longitude != snowDepth && longitude != seaIceThickness
      && latitude != iceDensity && latitude != snowDensity && latitude != snowDepth && latitude != seaIceThickness
      && iceDensity != snowDensity && iceDensity != snowDepth && iceDensity != seaIceThickness
      && snowDensity != snowDepth && snowDensity != seaIceThickness
      && snowDepth != seaIceThickness
    }

    /** Every parameter array has n entries. */
    predicate Sized(n: nat)
      reads this
    {
      && timestamp.Length == n && longitude.Length == n && latitude.Length == n && iceDensity.Length == n
      && snowDensity.Length == n && snowDepth.Length == n && seaIceThickness.Length == n
    }

    /** `init_parameter_groups(n_records, parameter_list)`: a new array of n entries per parameter. */
    method InitParameterGroups(n: nat)
      modifies this`timestamp, this`longitude, this`latitude, this`iceDensity
      modifies this`snowDensity, this`snowDepth, this`seaIceThickness
      ensures Sized(n) && Separate()
      ensures fresh(timestamp) && fresh(longitude) && fresh(latitude) && fresh(iceDensity)
      ensures fresh(snowDensity) && fresh(snowDepth) && fresh(seaIceThickness)
    {
      timestamp := new DateTime[n];
      longitude := new real[n];
      latitude := new real[n];
      iceDensity := new real[n];
      snowDensity := new real[n];
      snowDepth := new real[n];
      seaIceThickness := new real[n];
    }

    /** Entry i of each parameter read from a line holds that line's value. */
    predicate HoldsRow(i: nat, row: Row)
      requires Sized(timestamp.Length) && i < timestamp.Length
      reads this, timestamp, longitude, latitude, snowDensity, snowDepth, seaIceThickness
    {
      && timestamp[i] == row.timestamp && latitude[i] == row.latitude && longitude[i] == row.longitude
      && seaIceThickness[i] == row.seaIceThickness && snowDepth[i] == row.snowDepth
      && snowDensity[i] == row.snowDensity
    }

    /** The records stored in the parameter arrays, one per entry. */
    function Rows(): (rows: seq<Row>)
      requires Sized(timestamp.Length)
      reads this, timestamp, longitude, latitude, snowDensity, snowDepth, seaIceThickness
      ensures |rows| == timestamp.Length
      ensures forall i :: 0 <= i < |rows| ==> HoldsRow(i, rows[i])
    {
      var ts, lat, lon, sit, sd, rho := timestamp[..], latitude[..], longitude[..], seaIceThickness[..], snowDepth[..], snowDensity[..];
      seq(|ts|, i requires 0 <= i < |ts| => Row(ts[i], lat[i], lon[i], sit[i], sd[i], rho[i]))
    }

    /** `ice_density[:] = default_ice_density`: every entry set to the default. */
    method FillIceDensity()
      modifies iceDensity
      ensures forall i :: 0 <= i < iceDensity.Length ==> iceDensity[i] == DEFAULT_ICE_DENSITY
    {
      for i := 0 to iceDensity.Length
        invariant forall j :: 0 <= j < i ==> iceDensity[j] == DEFAULT_ICE_DENSITY
      {
        iceDensity[i] := DEFAULT_ICE_DENSITY;
      }
    }

    /**
      The loop of `parse`: line i of the record lines fills entry i of each
      parameter; the first line the reader rejects stops it with its error.
    */
    method FillRows(content: seq<string>, readLine: string -> Result<Row>) returns (r: Status)
      requires Sized(|content|) && Separate()
      modifies timestamp, longitude, latitude, snowDensity, snowDepth, seaIceThickness
      ensures r.Pass? <==> MapAll(readLine, content).Ok?
      ensures r.Fail? ==> r.error == MapAll(readLine, content).error
      ensures r.Pass? ==> Rows() == MapAll(readLine, content).value
    {
      for i := 0 to |content|
        invariant forall j :: 0 <= j < i ==> readLine(content[j]).Ok?
        invariant forall j :: 0 <= j < i ==> HoldsRow(j, readLine(content[j]).value)
      {
        var row := readLine(content[i]);
        if row.Err? {
          FirstFailure(readLine, content, i);
          return Fail(row.error);
        }
        timestamp[i] := row.value.timestamp;
        latitude[i] := row.value.latitude;
        longitude[i] := row.value.longitude;
        seaIceThickness[i] := row.value.seaIceThickness;
        snowDepth[i] := row.value.snowDepth;
        snowDensity[i] := row.value.snowDensity;
      }
      return Pass;
    }

    /**
      `parse`: the record lines after the header, one entry per line in each
      parameter, and the ice density filled with its default. On success every
      parameter has one entry per record line, holding that line's values.
    */
    method Parse(lines: seq<string>, readLine: string -> Result<Row>) returns (r: Status)
      modifies this`timestamp, this`longitude, this`latitude, this`iceDensity
      modifies this`snowDensity, this`snowDepth, this`seaIceThickness
      ensures r.Pass? <==> MapAll(readLine, RecordLines(lines)).Ok?
      ensures r.Fail? ==> r.error == MapAll(readLine, RecordLines(lines)).error
      ensures r.Pass? ==> Parsed(lines, readLine)
    {
      var content := RecordLines(lines);
      InitParameterGroups(|content|);
      r := FillRows(content, readLine);
      if r.Fail? {
        return;
      }
      FillIceDensity();
    }

    /** The state after a successful `parse` of lines. */
    predicate Parsed(lines: seq<string>, readLine: string -> Result<Row>)
      reads this, timestamp, longitude, latitude, iceDensity, snowDensity, snowDepth, seaIceThickness
    {
      && Sized(|RecordLines(lines)|)
      && MapAll(readLine, RecordLines(lines)).Ok?
      && Rows() == MapAll(readLine, RecordLines(lines)).value
      && forall i :: 0 <= i < iceDensity.Length ==> iceDensity[i] == DEFAULT_ICE_DENSITY
    }

    /** The `n_records` property: the length of the longitude parameter. */
    function NRecords(): nat
      reads this
    {
      longitude.Length
    }

    /**
      After a successful parse there is one record per line after the header,
      every parameter has that many entries, entry i holds the values of record
      line i, and every ice density is the default.
    */
    lemma ParsedRecords(lines: seq<string>, readLine: string -> Result<Row>)
      requires Parsed(lines, readLine)
      ensures NRecords() == |RecordLines(lines)| == if |lines| <= N_HEADER_LINES then 0 else |lines| - N_HEADER_LINES
      ensures Sized(NRecords())
      ensures forall i :: 0 <= i < NRecords() ==>
        readLine(RecordLines(lines)[i]).Ok? && HoldsRow(i, readLine(RecordLines(lines)[i]).value)
      ensures forall i :: 0 <= i < NRecords() ==> iceDensity[i] == DEFAULT_ICE_DENSITY
    {
      forall i | 0 <= i < NRecords()
        ensures readLine(RecordLines(lines)[i]).Ok? && HoldsRow(i, readLine(RecordLines(lines)[i]).value)
      {
        assert Rows()[i] == readLine(RecordLines(lines)[i]).value;
      }
    }
  }

  /** Line i is the first the reader rejects: MapAll stops with its error. */
  lemma FirstFailure<A, B>(f: A -> Result<B>, xs: seq<A>, i: nat)
    requires i < |xs| && f(xs[i]).Err?
    requires forall j :: 0 <= j < i ==> f(xs[j]).Ok?
    ensures MapAll(f, xs).Err? && MapAll(f, xs).error == f(xs[i]).error
  {
    var k :| 0 <= k < |xs| && f(xs[k]).Err? && MapAll(f, xs).error == f(xs[k]).error
             && forall j :: 0 <= j < k ==> f(xs[j]).Ok?;
    assert k == i;
  }

  /**
    `NASAJPLOrbitThickness(filename)`: the base fields, then `parse`; a line
    the reader rejects makes the construction raise.
  */
  method Open(filename: string, lines: seq<string>, readLine: string -> Result<Row>)
    returns (r: Result<NasaJplOrbitThickness>)
    ensures r.Ok? <==> MapAll(readLine, RecordLines(lines)).Ok?
    ensures r.Err? ==> r.error == MapAll(readLine, RecordLines(lines)).error
    ensures r.Ok? ==> var o := r.value;
      && fresh(o) && o.filename == filename
      && o.trackId == NOT_AVAILABLE && o.cs2OrbitId == NOT_AVAILABLE
      && o.Parsed(lines, readLine)
  {
    var o := new NasaJplOrbitThickness(filename);
    var s := o.Parse(lines, readLine);
    if s.Fail? {
      return Err(s.error);
    }
    return Ok(o);
  }
}
