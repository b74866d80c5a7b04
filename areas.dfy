/**
  The area configuration: the default table and lookup of
  `lib/areaConfig.ts`, and the list transformations the `POST` handler of
  `app/api/areas/route.ts` applies before it saves the list.
*/
module Areas {
  import opened Wrappers
  import opened Collections

  datatype QuarterlyTargets = QuarterlyTargets(q1: int, q2: int, q3: int, q4: int)

  /** An `AreaConfig`; `None` is an omitted optional field. */
  datatype AreaConfig = AreaConfig(
    id: string,
    name: string,
    description: Option<string>,
    quarterlyTargets: Option<QuarterlyTargets>)

  /** `defaultAreas`. */
  const DefaultAreas: seq<AreaConfig> := [
    AreaConfig("banyuwangi", "Area Banyuwangi", Some("Wilayah Banyuwangi dan sekitarnya"),
               Some(QuarterlyTargets(50000, 60000, 55000, 70000))),
    AreaConfig("jember", "Area Jember", Some("Wilayah Jember dan sekitarnya"),
               Some(QuarterlyTargets(45000, 52000, 48000, 65000))),
    AreaConfig("surabaya", "Area Surabaya", Some("Wilayah Surabaya Raya"),
               Some(QuarterlyTargets(80000, 90000, 85000, 100000))),
    AreaConfig("malang", "Area Malang", Some("Wilayah Malang Raya"),
               Some(QuarterlyTargets(65000, 72000, 68000, 82000))),
    AreaConfig("pasuruan", "Area Pasuruan", Some("Wilayah Pasuruan Raya"),
               Some(QuarterlyTargets(38000, 42000, 40000, 52000)))
  ]

  predicate PositiveTargets(t: QuarterlyTargets) {
    t.q1 > 0 && t.q2 > 0 && t.q3 > 0 && t.q4 > 0
  }

  /** The default table has five areas with different ids, each with four positive quarterly targets. */
  lemma DefaultAreasWellFormed()
    ensures |DefaultAreas| == 5
    ensures forall i, j :: 0 <= i < j < |DefaultAreas| ==> DefaultAreas[i].id != DefaultAreas[j].id
    ensures forall i :: 0 <= i < |DefaultAreas| ==>
              DefaultAreas[i].quarterlyTargets.Some? && PositiveTargets(DefaultAreas[i].quarterlyTargets.value)
  {
    assert DefaultAreas[0].id[0] == 'b' && DefaultAreas[1].id[0] == 'j' && DefaultAreas[2].id[0] == 's';
    assert DefaultAreas[3].id[0] == 'm' && DefaultAreas[4].id[0] == 'p';
  }

  /** `getAllAreas`: the list it is given, untouched. */
  function GetAllAreas(areas: seq<AreaConfig>): (r: seq<AreaConfig>)
    ensures r == areas
  {
    areas
  }

  /** `areas.find(area => area.id === areaId) || null`. */
  function GetAreaById(areaId: string, areas: seq<AreaConfig>): Option<AreaConfig> {
    if areas == [] then None
    else if areas[0].id == areaId then Some(areas[0])
    else GetAreaById(areaId, areas[1..])
  }

  /** The lookup finds nothing exactly when no area has the id, and otherwise the first one that does. */
  lemma {:induction false} GetAreaByIdFindsFirst(areaId: string, areas: seq<AreaConfig>)
    ensures GetAreaById(areaId, areas).None? <==> forall i :: 0 <= i < |areas| ==> areas[i].id != areaId
    ensures GetAreaById(areaId, areas).Some? ==>
              exists i :: 0 <= i < |areas| && GetAreaById(areaId, areas).value == areas[i]
                          && areas[i].id == areaId
                          && forall j :: 0 <= j < i ==> areas[j].id != areaId
  {
    if areas != [] && areas[0].id != areaId {
      var rest := areas[1..];
      GetAreaByIdFindsFirst(areaId, rest);
      assert forall i :: 0 <= i < |rest| ==> rest[i] == areas[i + 1];
      if GetAreaById(areaId, rest).Some? {
        var i :| 0 <= i < |rest| && GetAreaById(areaId, rest).value == rest[i] && rest[i].id == areaId
                 && forall j :: 0 <= j < i ==> rest[j].id != areaId;
        assert areas[i + 1] == rest[i];
        forall j | 0 <= j < i + 1
          ensures areas[j].id != areaId
        {
          if j > 0 { assert areas[j] == rest[j - 1]; }
        }
      }
    } else if areas != [] {
      assert GetAreaById(areaId, areas).value == areas[0];
    }
  }

  /**
    Called without a list, `getAllAreas()` and `getAreaById(id)` use the
    default table: the former returns it, and the latter finds every
    default area under its own id and nothing for an id outside the table.
  */
  lemma DefaultArgumentCalls(areaId: string)
    ensures GetAllAreas(DefaultAreas) == DefaultAreas
    ensures forall i :: 0 <= i < |DefaultAreas| ==> GetAreaById(DefaultAreas[i].id, DefaultAreas) == Some(DefaultAreas[i])
    ensures (forall i :: 0 <= i < |DefaultAreas| ==> DefaultAreas[i].id != areaId) ==> GetAreaById(areaId, DefaultAreas) == None
  {
    DefaultAreasWellFormed();
    GetAreaByIdFindsFirst(areaId, DefaultAreas);
    forall i | 0 <= i < |DefaultAreas|
      ensures GetAreaById(DefaultAreas[i].id, DefaultAreas) == Some(DefaultAreas[i])
    {
      var id := DefaultAreas[i].id;
      GetAreaByIdFindsFirst(id, DefaultAreas);
      var k :| 0 <= k < |DefaultAreas| && GetAreaById(id, DefaultAreas).value == DefaultAreas[k]
               && DefaultAreas[k].id == id && forall j :: 0 <= j < k ==> DefaultAreas[j].id != id;
    }
  }

  // ---------------------------------------------------------------------------
  // POST /api/areas
  // ---------------------------------------------------------------------------

  /** `areas.some((a) => a.id === id)`. */
  predicate SomeHasId(areas: seq<AreaConfig>, id: string) {
    if areas == [] then false else areas[0].id == id || SomeHasId(areas[1..], id)
  }

  lemma {:induction false} SomeHasIdIff(areas: seq<AreaConfig>, id: string)
    ensures SomeHasId(areas, id) <==> exists i :: 0 <= i < |areas| && areas[i].id == id
  {
    if areas != [] {
      var rest := areas[1..];
      SomeHasIdIff(rest, id);
      assert forall i :: 0 <= i < |rest| ==> rest[i] == areas[i + 1];
      if exists i :: 0 <= i < |areas| && areas[i].id == id {
        var i :| 0 <= i < |areas| && areas[i].id == id;
        if i > 0 { assert rest[i - 1].id == id; }
      }
    }
  }

  /** `areas.map((a) => a.id === area.id ? area : a)`. */
  function ReplaceById(areas: seq<AreaConfig>, area: AreaConfig): seq<AreaConfig> {
    if areas == [] then []
    else [if areas[0].id == area.id then area else areas[0]] + ReplaceById(areas[1..], area)
  }

  /**
    `update` keeps length and order, puts `area` where the id matches and
    leaves every other element where it was; an unknown id changes nothing.
  */
  lemma {:induction false} ReplaceByIdInPlace(areas: seq<AreaConfig>, area: AreaConfig)
    ensures |ReplaceById(areas, area)| == |areas|
    ensures forall i :: 0 <= i < |areas| ==>
              ReplaceById(areas, area)[i] == if areas[i].id == area.id then area else areas[i]
    ensures (forall i :: 0 <= i < |areas| ==> areas[i].id != area.id) ==> ReplaceById(areas, area) == areas
  {
    if areas != [] {
      var rest := areas[1..];
      ReplaceByIdInPlace(rest, area);
      assert forall i :: 0 <= i < |rest| ==> rest[i] == areas[i + 1];
      assert forall i :: 1 <= i < |areas| ==> ReplaceById(areas, area)[i] == ReplaceById(rest, area)[i - 1];
    }
  }

  function IdIsNot(id: string): AreaConfig -> bool {
    (a: AreaConfig) => a.id != id
  }

  /** `areas.filter((a) => a.id !== area.id)`. */
  function RemoveById(areas: seq<AreaConfig>, id: string): seq<AreaConfig> {
    Where(areas, IdIsNot(id))
  }

  /** `delete` removes every area with the id and keeps the others, in their order. */
  lemma RemoveByIdKeepsOthers(areas: seq<AreaConfig>, id: string)
    ensures var r := RemoveById(areas, id);
            var idx := WhereIndices(areas, IdIsNot(id));
            && (forall a :: a in r <==> a in areas && a.id != id)
            && |r| == |idx|
            && (forall k :: 0 <= k < |r| ==> idx[k] < |areas| && r[k] == areas[idx[k]])
            && (forall k, l :: 0 <= k < l < |idx| ==> idx[k] < idx[l])
            && (forall i :: 0 <= i < |areas| ==> (i in idx <==> areas[i].id != id))
  {
    WhereIsSubsequence(areas, IdIsNot(id));
  }

  /** The JSON the handler answers with; `Failure` carries the HTTP status. */
  datatype Response =
    | Success(areas: seq<AreaConfig>, count: nat)
    | Failure(status: nat, error: string)

  /** What one `POST` does to the stored list: the response, and the list it saves (`None`: nothing saved). */
  datatype Outcome = Outcome(response: Response, saved: Option<seq<AreaConfig>>)

  function Respond(areas: seq<AreaConfig>): Outcome {
    Outcome(Success(areas, |areas|), Some(areas))
  }

  /** `POST /api/areas` with body `{ area, action }` against the stored list. */
  function Post(stored: seq<AreaConfig>, action: string, area: AreaConfig): (o: Outcome)
    ensures o.response.Success? ==> o.saved == Some(o.response.areas) && o.response.count == |o.response.areas|
    ensures o.response.Failure? ==> o.saved.None?
  {
    if action == "add" then
      if SomeHasId(stored, area.id) then Outcome(Failure(400, "Area dengan ID ini sudah ada"), None)
      else Respond(stored + [area])
    else if action == "update" then Respond(ReplaceById(stored, area))
    else if action == "delete" then Respond(RemoveById(stored, area.id))
    else Respond(stored)
  }

  /**
    `add` of an id already present answers 400 and saves nothing; a fresh id
    is appended after the unchanged earlier areas.
  */
  lemma AddArea(stored: seq<AreaConfig>, area: AreaConfig)
    ensures (exists i :: 0 <= i < |stored| && stored[i].id == area.id) ==>
              Post(stored, "add", area) == Outcome(Failure(400, "Area dengan ID ini sudah ada"), None)
    ensures (forall i :: 0 <= i < |stored| ==> stored[i].id != area.id) ==>
              var o := Post(stored, "add", area);
              && o.response.Success?
              && |o.response.areas| == |stored| + 1
              && o.response.areas[..|stored|] == stored
              && o.response.areas[|stored|] == area
  {
    SomeHasIdIff(stored, area.id);
    assert (stored + [area])[..|stored|] == stored;
  }

  /** Every action other than `add`, `update` and `delete` answers and saves the stored list as it is. */
  lemma UnknownActionKeepsList(stored: seq<AreaConfig>, action: string, area: AreaConfig)
    requires action != "add" && action != "update" && action != "delete"
    ensures Post(stored, action, area) == Outcome(Success(stored, |stored|), Some(stored))
  {
  }
}
