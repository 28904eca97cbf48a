/** Record shapes of the drought-warning store: the three tables the
    triage and dispatch logic reads and writes. Floats are exact reals;
    nullable columns are `Option`. */
module Records {

  datatype Option<T> = None | Some(value: T)

  /** A village; `id` is its primary key. */
  datatype Village = Village(
    id: int,
    name: string,
    district: string,
    population: int,
    latitude: real,
    longitude: real)

  /** One hydrological reading of one village. `stressIndex` is derived when
      the reading is stored; `predictedStressIndex` is never computed. */
  datatype WaterData = WaterData(
    villageId: int,
    recordDate: int,
    rainfallDeviationMm: real,
    groundwaterLevelM: real,
    stressIndex: real,
    predictedStressIndex: Option<real>)

  /** A water tanker; its position is unknown until it reports one. */
  datatype Tanker = Tanker(
    id: int,
    licensePlate: string,
    capacityLiters: int,
    isAvailable: bool,
    currentLatitude: Option<real>,
    currentLongitude: Option<real>)

  /** The village with primary key `id`, as a query filtered on the key and
      taking the first row finds it. */
  function FindVillage(villages: seq<Village>, id: int): (r: Option<Village>)
    ensures r.Some? ==> r.value in villages && r.value.id == id
    ensures r.None? <==> forall v :: v in villages ==> v.id != id
  {
    if |villages| == 0 then None
    else if villages[0].id == id then Some(villages[0])
    else FindVillage(villages[1..], id)
  }
}
