/** The vessel registry of piracy_classes.py (and of its earlier copy
    Deprecated/piracy_classes.py, whose Vessel, build_vessel_dict and dms_to_decimal are the
    same code): CSV rows are grouped by ship name into Vessel objects, each holding one
    Incident per incident date. */
module Registry {
  import opened Common

  /** The key `strptime(date, '%m/%d/%Y')` yields; parsing itself is not modelled. */
  datatype Date = Date(month: int, day: int, year: int)

  /** `Coord(lat, lon)`, kept as the two texts the row supplied. */
  datatype Coord = Coord(lat: string, lon: string)

  /** An `Incident`; the script never changes one after construction. */
  datatype Incident = Incident(coord: Option<Coord>, consequence: string, area: string, part: string,
                               shipStatus: string, weapon: string, crewInj: string, crewHostage: string,
                               crewMissing: string, crewDeath: string, crewAssaulted: string)

  /** One CSV data row, its 16 fields in file order. */
  datatype Row = Row(incidentDate: Date, shipName: string, shipFlag: string, shipType: string,
                     incArea: string, lat: string, lon: string, consequence: string, shipPart: string,
                     shipStatus: string, weaponUsed: string, crewInjury: string, crewHostage: string,
                     crewMissing: string, crewDeath: string, crewAssault: string)

  /** The incident `add_inc` builds from its arguments. */
  function MakeIncident(lat: string, lon: string, area: string, consequence: string, part: string,
                        shipStatus: string, weapon: string, crewInj: string, crewHostage: string,
                        crewMissing: string, crewDeath: string, crewAssaulted: string): (inc: Incident)
    ensures inc.coord.Some? <==> lat != "" && lon != ""
    ensures inc.coord.Some? ==> inc.coord.value == Coord(lat, lon)
    ensures inc.area == area && inc.consequence == consequence && inc.part == part
    ensures inc.shipStatus == shipStatus && inc.weapon == weapon && inc.crewInj == crewInj
    ensures inc.crewHostage == crewHostage && inc.crewMissing == crewMissing
    ensures inc.crewDeath == crewDeath && inc.crewAssaulted == crewAssaulted
  {
    Incident(if lat != "" && lon != "" then Some(Coord(lat, lon)) else None,
             consequence, area, part, shipStatus, weapon, crewInj, crewHostage, crewMissing,
             crewDeath, crewAssaulted)
  }

  /** The incident `build_vessel_dict` adds for a row (lines 241-242 pass the fields in order). */
  function RowIncident(r: Row): Incident {
    MakeIncident(r.lat, r.lon, r.incArea, r.consequence, r.shipPart, r.shipStatus, r.weaponUsed,
                 r.crewInjury, r.crewHostage, r.crewMissing, r.crewDeath, r.crewAssault)
  }

  /** `Vessel.__str__` as a value: `name(name='name',type=T,flag=F,N incidents)` where
      an empty type prints as None, an empty flag is left out, and an empty name leaves out
      the whole name/type/flag part. */
  function Describe(name: string, shipType: string, flag: string, count: nat): (r: string)
    ensures |r| > |name| && r[..|name| + 1] == name + "("
    ensures |r| >= 11 && r[|r| - 11..] == " incidents)"
  {
    Header(name, shipType, flag) + "," + DecimalString(count) + " incidents" + ")"
  }

  /** Everything before the count: `name(` and, for a non-empty name, the name, type and flag. */
  function Header(name: string, shipType: string, flag: string): (r: string)
    ensures |r| > |name| && r[..|name| + 1] == name + "("
    ensures name == "" <==> r == "("
    ensures name != "" && flag != "" ==> |r| >= |flag| + 6 && r[|r| - |flag| - 6..] == ",flag=" + flag
  {
    var prefix := name + "(";
    if name == "" then prefix
    else
      var named := prefix + "name='" + name + "'";
      var typed := if shipType != "" then named + ",type=" + shipType else named + ",type=None";
      if flag != "" then typed + ",flag=" + flag else typed
  }

  /** A vessel with no name prints only its count. */
  lemma DescribeNameless(shipType: string, flag: string, count: nat)
    ensures Describe("", shipType, flag, count) == "(" + "," + DecimalString(count) + " incidents" + ")"
  {
  }

  /** The ordinary layout: a vessel with a name, a type and a flag prints all three and its count. */
  lemma DescribeNamed(name: string, shipType: string, flag: string, count: nat)
    requires name != "" && shipType != "" && flag != ""
    ensures Describe(name, shipType, flag, count)
         == name + "(" + "name='" + name + "'" + ",type=" + shipType + ",flag=" + flag
            + "," + DecimalString(count) + " incidents" + ")"
  {
  }

  /** A named vessel without a flag prints its name and type and no `flag=` entry. */
  lemma DescribeEmptyFlagOmitted(name: string, shipType: string, count: nat)
    requires name != ""
    ensures Describe(name, shipType, "", count)
         == name + "(" + "name='" + name + "'" + (if shipType != "" then ",type=" + shipType else ",type=None")
            + "," + DecimalString(count) + " incidents" + ")"
  {
    var named := name + "(" + "name='" + name + "'";
    if shipType != "" {
      assert Header(name, shipType, "") == named + ",type=" + shipType;
    } else {
      assert Header(name, shipType, "") == named + ",type=None";
    }
  }

  /** An empty type prints exactly as the literal type `None` would. */
  lemma DescribeEmptyTypeIsNone(name: string, flag: string, count: nat)
    requires name != ""
    ensures Describe(name, "", flag, count) == Describe(name, "None", flag, count)
  {
    var named := name + "(" + "name='" + name + "'";
    assert named + ",type=None" == named + ",type=" + "None" by {
      ConcatAssoc(named, ",type=", "None");
    }
    assert Header(name, "", flag) == Header(name, "None", flag);
  }

  lemma ConcatAssoc(a: string, b: string, c: string)
    ensures a + b + c == a + (b + c)
  {
  }

  /** Reads the count back from the end of a `__str__` text: the digits between the last
      ',' and the closing " incidents)". */
  function CountSuffix(s: string): Option<nat> {
    var tail := " incidents)";
    if |s| < |tail| || s[|s| - |tail|..] != tail then None
    else
      var end := |s| - |tail|;
      var start := DigitRunStart(s, end);
      if start == end || start == 0 || s[start - 1] != ',' then None
      else Some(DigitsValue(s[start..end]))
  }

  /** Where the run of digits that ends just before position `end` begins. */
  function DigitRunStart(s: string, end: nat): (start: nat)
    requires end <= |s|
    ensures start <= end
    ensures forall p :: start <= p < end ==> IsDigit(s[p])
    ensures start > 0 ==> !IsDigit(s[start - 1])
    decreases end
  {
    if end == 0 || !IsDigit(s[end - 1]) then end else DigitRunStart(s, end - 1)
  }

  lemma {:induction false} DigitRunStartAt(s: string, start: nat, end: nat)
    requires 0 < start <= end <= |s| && !IsDigit(s[start - 1])
    requires forall p :: start <= p < end ==> IsDigit(s[p])
    ensures DigitRunStart(s, end) == start
    decreases end
  {
  }

  /** `CountSuffix` finds the digit run that a comma opens and " incidents)" closes. */
  lemma CountSuffixAt(s: string, start: nat, end: nat)
    requires 0 < start < end && end + 11 == |s| && s[end..] == " incidents)"
    requires s[start - 1] == ','
    requires forall p :: start <= p < end ==> IsDigit(s[p])
    ensures CountSuffix(s) == Some(DigitsValue(s[start..end]))
  {
    DigitRunStartAt(s, start, end);
  }

  /** A run of digits after a comma and before " incidents)" is read back as its value. */
  lemma CountSuffixAfterComma(head: string, digits: string)
    requires |head| >= 1 && head[|head| - 1] == ','
    requires |digits| >= 1 && AllDigits(digits)
    ensures CountSuffix(head + digits + " incidents)") == Some(DigitsValue(digits))
  {
    var body := head + digits;
    var s := body + " incidents)";
    var end := |body|;
    assert s[end..] == " incidents)";
    assert s[..end] == body;
    assert s[|head|..end] == digits by {
      assert s[|head|..end] == s[..end][|head|..];
    }
    assert s[|head| - 1] == ',' by {
      assert s[|head| - 1] == body[|head| - 1];
    }
    forall p | |head| <= p < end
      ensures IsDigit(s[p])
    {
      assert s[p] == s[|head|..end][p - |head|];
    }
    CountSuffixAt(s, |head|, end);
  }

  /** `__str__` always appends the count, and it can be recovered from the text. */
  lemma DescribeCountRecoverable(name: string, shipType: string, flag: string, count: nat)
    ensures CountSuffix(Describe(name, shipType, flag, count)) == Some(count)
  {
    var body := Header(name, shipType, flag) + "," + DecimalString(count);
    assert body + " incidents" + ")" == body + " incidents)" by {
      ConcatAssoc(body, " incidents", ")");
    }
    CountSuffixAfterComma(Header(name, shipType, flag) + ",", DecimalString(count));
    DecimalStringRoundTrip(count);
  }

  /** `degrees + minutes / 60 + seconds / 3600` with Python's true division. */
  function DmsToDecimal(degrees: real, minutes: real, seconds: real): (r: real)
    ensures (r - degrees) * 3600.0 == minutes * 60.0 + seconds
  {
    degrees + minutes / 60.0 + seconds / 3600.0
  }

  /** For a whole degree of either sign, a whole minute and seconds below 60 the conversion is
      undone exactly: the degree, minute and second parts can be read back. */
  lemma DmsToDecimalRoundTrip(d: int, m: int, s: real)
    requires 0 <= m < 60 && 0.0 <= s < 60.0
    ensures var r := DmsToDecimal(d as real, m as real, s);
      && r.Floor == d
      && ((r - d as real) * 60.0).Floor == m
      && (r - d as real - m as real / 60.0) * 3600.0 == s
  {
  }

  /** A `Vessel`: name, flag and type fixed at construction, `incidents` keyed by date. */
  class Vessel {
    var name: string
    var flag: string
    var shipType: string
    var incidents: map<Date, Incident>

    /** `Vessel.__init__`. */
    constructor (shipName: string, shipFlag: string, shipType': string)
      ensures name == shipName && flag == shipFlag && shipType == shipType' && incidents == map[]
    {
      name := shipName;
      flag := shipFlag;
      shipType := shipType';
      incidents := map[];
    }

    /** `Vessel.add_inc`: stores one incident under the parsed date, replacing any incident
        already stored for that date; nothing else changes. */
    method AddInc(date: Date, lat: string, lon: string, area: string, consequence: string, part: string,
                  shipStatus: string, weapon: string, crewInj: string, crewHostage: string,
                  crewMissing: string, crewDeath: string, crewAssaulted: string)
      modifies this
      ensures incidents == old(incidents)[date := MakeIncident(lat, lon, area, consequence, part, shipStatus,
                                                               weapon, crewInj, crewHostage, crewMissing,
                                                               crewDeath, crewAssaulted)]
      ensures name == old(name) && flag == old(flag) && shipType == old(shipType)
    {
      var coord: Option<Coord> := None;
      if lat != "" && lon != "" {
        coord := Some(Coord(lat, lon));
      }
      incidents := incidents[date := Incident(coord, consequence, area, part, shipStatus, weapon, crewInj,
                                              crewHostage, crewMissing, crewDeath, crewAssaulted)];
    }

    /** `Vessel.num_incidents`: one per distinct date stored. */
    function NumIncidents(): (n: nat)
      reads this
      ensures n == |incidents.Keys|
    {
      |incidents|
    }

    /** `Vessel.get_incidents` (Deprecated/piracy_classes.py only). */
    function GetIncidents(): (m: map<Date, Incident>)
      reads this
      ensures m.Keys == incidents.Keys && forall d :: d in m ==> m[d] == incidents[d]
    {
      incidents
    }

    /** `Vessel.__str__`, building `retval` piece by piece. */
    method Str() returns (retval: string)
      ensures retval == Describe(name, shipType, flag, |incidents|)
    {
      retval := name;
      retval := retval + "(";
      if name != "" {
        retval := retval + "name='" + name + "'";
        if shipType != "" {
          retval := retval + ",type=" + shipType;
        } else {
          retval := retval + ",type=None";
        }
        if flag != "" {
          retval := retval + ",flag=" + flag;
        }
      }
      retval := retval + "," + DecimalString(NumIncidents()) + " incidents";
      retval := retval + ")";
    }
  }

  // ---- What build_vessel_dict computes, stated over the rows ----

  /** The ship names appearing in `rows`. */
  function ShipNames(rows: seq<Row>): set<string> {
    set i | 0 <= i < |rows| :: rows[i].shipName
  }

  /** The position of the first row named `n`, or |rows| if there is none. */
  function FirstRowOf(rows: seq<Row>, n: string): (k: nat)
    ensures k <= |rows|
    ensures k < |rows| ==> rows[k].shipName == n
    ensures forall j :: 0 <= j < k ==> rows[j].shipName != n
    decreases |rows|
  {
    if rows == [] then 0
    else
      var k := FirstRowOf(rows[..|rows| - 1], n);
      if k < |rows| - 1 then k
      else if rows[|rows| - 1].shipName == n then |rows| - 1
      else |rows|
  }

  /** The incidents dictionary the vessel named `n` ends up with: its rows' incidents, in row
      order, each stored under its date. */
  function IncidentsOf(rows: seq<Row>, n: string): map<Date, Incident>
    decreases |rows|
  {
    if rows == [] then map[]
    else
      var m := IncidentsOf(rows[..|rows| - 1], n);
      var last := rows[|rows| - 1];
      if last.shipName == n then m[last.incidentDate := RowIncident(last)] else m
  }

  /** The dates of the rows named `n`. */
  function DatesOf(rows: seq<Row>, n: string): set<Date> {
    set i | 0 <= i < |rows| && rows[i].shipName == n :: rows[i].incidentDate
  }

  /** A vessel holds one incident per distinct date among its own rows: its keys are those
      dates, so `num_incidents` counts them. */
  lemma {:induction false} IncidentsOfKeys(rows: seq<Row>, n: string)
    ensures IncidentsOf(rows, n).Keys == DatesOf(rows, n)
    decreases |rows|
  {
    if rows != [] {
      var p := rows[..|rows| - 1];
      IncidentsOfKeys(p, n);
      var last := rows[|rows| - 1];
      assert forall i :: 0 <= i < |p| ==> p[i] == rows[i];
      if last.shipName == n {
        assert DatesOf(rows, n) == DatesOf(p, n) + {last.incidentDate};
      } else {
        assert DatesOf(rows, n) == DatesOf(p, n);
      }
    }
  }

  /** The later row wins: the incident stored for date `d` is the one of the last row named `n`
      with that date. */
  lemma {:induction false} LastIncidentWins(rows: seq<Row>, n: string, i: nat)
    requires i < |rows| && rows[i].shipName == n
    requires forall j :: i < j < |rows| ==> !(rows[j].shipName == n && rows[j].incidentDate == rows[i].incidentDate)
    ensures rows[i].incidentDate in IncidentsOf(rows, n)
    ensures IncidentsOf(rows, n)[rows[i].incidentDate] == RowIncident(rows[i])
    decreases |rows|
  {
    var p := rows[..|rows| - 1];
    if i < |rows| - 1 {
      assert forall j :: i < j < |p| ==> p[j] == rows[j];
      LastIncidentWins(p, n, i);
    }
  }

  /** A row touches only its own ship's dictionary and only its own date. */
  lemma {:induction false} IncidentsOfOtherDates(rows: seq<Row>, n: string, d: Date)
    requires forall j :: 0 <= j < |rows| ==> !(rows[j].shipName == n && rows[j].incidentDate == d)
    ensures d !in IncidentsOf(rows, n)
    decreases |rows|
  {
    if rows != [] {
      IncidentsOfOtherDates(rows[..|rows| - 1], n, d);
    }
  }

  /** The state of one vessel after the first rows of the file have been read. */
  ghost predicate Loaded(v: Vessel, rows: seq<Row>, n: string)
    reads v
  {
    var k := FirstRowOf(rows, n);
    k < |rows| &&
    v.name == n && v.flag == rows[k].shipFlag && v.shipType == rows[k].shipType &&
    v.incidents == IncidentsOf(rows, n)
  }

  /** `vesselDict` is the dictionary after the first `i` rows: one distinct, loaded Vessel per
      ship name seen so far. */
  ghost predicate DictAfter(vesselDict: map<string, Vessel>, rows: seq<Row>, i: nat)
    requires i <= |rows|
    reads vesselDict.Values
  {
    && vesselDict.Keys == ShipNames(rows[..i])
    && (forall n :: n in vesselDict ==> Loaded(vesselDict[n], rows[..i], n))
    && (forall n, m :: n in vesselDict && m in vesselDict && n != m ==> vesselDict[n] != vesselDict[m])
  }

  /** One pass of the loop in `build_vessel_dict` (lines 238-242): the row's ship gets a new
      Vessel the first time its name is seen, then the row's incident is added to it. */
  method AddRow(vesselDict: map<string, Vessel>, rows: seq<Row>, i: nat) returns (d: map<string, Vessel>)
    requires i < |rows| && DictAfter(vesselDict, rows, i)
    modifies vesselDict.Values
    ensures DictAfter(d, rows, i + 1)
    ensures forall n :: n in d ==> (n in vesselDict && d[n] == vesselDict[n]) || fresh(d[n])
  {
    var row := rows[i];
    NextRow(rows, i);
    NextRowFor(rows, i, row.shipName);
    d := vesselDict;
    if row.shipName !in d {
      IncidentsOfAbsent(rows[..i], row.shipName);
      var v := new Vessel(row.shipName, row.shipFlag, row.shipType);
      d := d[row.shipName := v];
    }
    var v := d[row.shipName];
    assert v.name == row.shipName && v.incidents == IncidentsOf(rows[..i], row.shipName);
    assert FirstRowOf(rows[..i + 1], row.shipName) < i + 1;
    assert v.flag == rows[FirstRowOf(rows[..i + 1], row.shipName)].shipFlag;
    assert v.shipType == rows[FirstRowOf(rows[..i + 1], row.shipName)].shipType;
    v.AddInc(row.incidentDate, row.lat, row.lon, row.incArea, row.consequence, row.shipPart, row.shipStatus,
             row.weaponUsed, row.crewInjury, row.crewHostage, row.crewMissing, row.crewDeath, row.crewAssault);
    assert Loaded(v, rows[..i + 1], row.shipName);
    forall n | n in d && n != row.shipName
      ensures Loaded(d[n], rows[..i + 1], n)
    {
      LoadedNext(d[n], rows, i, n);
    }
  }

  /** `build_vessel_dict` over the data rows (the header line is already skipped): one fresh
      Vessel per distinct ship name, flag and type from the name's first row, every row's
      incident added to its own ship's vessel; `linecount` counts the data rows. */
  method BuildVesselDict(rows: seq<Row>) returns (vesselDict: map<string, Vessel>, linecount: nat)
    ensures linecount == |rows|
    ensures vesselDict.Keys == ShipNames(rows)
    ensures forall n :: n in vesselDict ==> fresh(vesselDict[n]) && Loaded(vesselDict[n], rows, n)
    ensures forall n, m :: n in vesselDict && m in vesselDict && n != m ==> vesselDict[n] != vesselDict[m]
  {
    vesselDict := map[];
    linecount := 0;
    var i := 0;
    while i < |rows|
      invariant 0 <= i <= |rows| && linecount == i
      invariant DictAfter(vesselDict, rows, i)
      invariant forall n :: n in vesselDict ==> fresh(vesselDict[n])
    {
      linecount := linecount + 1;
      vesselDict := AddRow(vesselDict, rows, i);
      i := i + 1;
    }
    assert rows[..i] == rows;
  }

  /** A ship that has no row has no incidents. */
  lemma {:induction false} IncidentsOfAbsent(rows: seq<Row>, n: string)
    requires n !in ShipNames(rows)
    ensures IncidentsOf(rows, n) == map[]
    decreases |rows|
  {
    if rows != [] {
      var p := rows[..|rows| - 1];
      assert ShipNames(p) <= ShipNames(rows) by {
        assert forall j :: 0 <= j < |p| ==> p[j] == rows[j];
      }
      IncidentsOfAbsent(p, n);
      assert rows[|rows| - 1].shipName in ShipNames(rows);
    }
  }

  /** How the ship names move from the first `i` rows to the first `i + 1`. */
  lemma NextRow(rows: seq<Row>, i: nat)
    requires i < |rows|
    ensures ShipNames(rows[..i + 1]) == ShipNames(rows[..i]) + {rows[i].shipName}
  {
    var p := rows[..i + 1];
    assert p[..i] == rows[..i];
    assert forall j :: 0 <= j < i ==> p[j] == rows[..i][j];
  }

  /** How one vessel's incidents and first row move from the first `i` rows to the first `i + 1`. */
  lemma NextRowFor(rows: seq<Row>, i: nat, n: string)
    requires i < |rows|
    ensures IncidentsOf(rows[..i + 1], n) ==
            (if rows[i].shipName == n
             then IncidentsOf(rows[..i], n)[rows[i].incidentDate := RowIncident(rows[i])]
             else IncidentsOf(rows[..i], n))
    ensures FirstRowOf(rows[..i + 1], n) ==
            (if FirstRowOf(rows[..i], n) < i then FirstRowOf(rows[..i], n)
             else if rows[i].shipName == n then i else i + 1)
  {
    var p := rows[..i + 1];
    assert p[..i] == rows[..i];
  }

  /** A row of another ship leaves a loaded vessel loaded. */
  lemma LoadedNext(v: Vessel, rows: seq<Row>, i: nat, n: string)
    requires i < |rows| && rows[i].shipName != n && Loaded(v, rows[..i], n)
    ensures Loaded(v, rows[..i + 1], n)
  {
    NextRowFor(rows, i, n);
    assert rows[..i + 1][FirstRowOf(rows[..i], n)] == rows[FirstRowOf(rows[..i], n)];
  }
}
