/** The record table and its two operations (app/crud.py). */
module Crud {
  import opened Wrappers
  import opened Errors
  import opened Models
  import opened Schemas

  /** Both filter conditions of the lookup query hold of `w`. */
  predicate HasKey(w: Weather, city: string, date: DateTime) {
    w.city == city && w.date == date
  }

  /**
   * The query `filter(city == city, date == date).first()` over the rows of
   * the table. Its contract promises SOME row carrying the key, not the
   * earliest one: the query has no ORDER BY.
   */
  function FindRow(rows: seq<Weather>, city: string, date: DateTime): (r: Option<Weather>)
    ensures r.Some? ==> r.value in rows && HasKey(r.value, city, date)
    ensures r.None? <==> forall i :: 0 <= i < |rows| ==> !HasKey(rows[i], city, date)
  {
    if |rows| == 0 then None
    else if HasKey(rows[0], city, date) then Some(rows[0])
    else FindRow(rows[1..], city, date)
  }

  /** Once a key is absent, appending a row with that key makes it the row found. */
  lemma {:induction false} FindAfterAppendAbsent(rows: seq<Weather>, x: Weather, city: string, date: DateTime)
    requires FindRow(rows, city, date).None?
    requires HasKey(x, city, date)
    ensures FindRow(rows + [x], city, date) == Some(x)
  {
    if |rows| > 0 {
      assert (rows + [x])[1..] == rows[1..] + [x];
      FindAfterAppendAbsent(rows[1..], x, city, date);
    }
  }

  /** `models.Weather(**weather.model_dump())`: the unsaved row for a validated create request. */
  function ToRow(w: WeatherCreate): (row: Weather)
    ensures row.id.None? && BaseOf(row) == w
  {
    NewWeather(w.city, w.date, w.minTemp, w.maxTemp, w.avgTemp, w.humidity)
  }

  /** Where a session raises while storing a row, if it does. */
  datatype SessionFault = NoFault | FailsBeforeCommit | FailsAfterCommit

  /** The row as stored: an explicit id is kept, a missing one becomes `next`. */
  function Stored(row: Weather, next: int): (s: Weather)
    ensures s.id == Some(if row.id.None? then next else row.id.value) && BaseOf(s) == BaseOf(row)
  {
    row.(id := Some(if row.id.None? then next else row.id.value))
  }

  /** The row `create_weather` stores for `w` when the database gives it `id`. */
  function Inserted(w: WeatherCreate, id: int): (row: Weather)
    ensures row.id == Some(id) && BaseOf(row) == w
  {
    Stored(ToRow(w), id)
  }

  /**
   * The `weather` table as seen through one session. `nextId` is the id the
   * database gives the next row inserted without one: above every id present,
   * so no id is ever handed out twice (the table never loses rows here).
   */
  class Store {
    var rows: seq<Weather>
    var nextId: int

    /** Every stored row has an id, below `nextId`, and ids are pairwise distinct. */
    ghost predicate Valid()
      reads this
    {
      && 1 <= nextId
      && (forall i :: 0 <= i < |rows| ==> rows[i].id.Some? && rows[i].id.value < nextId)
      && (forall i, j :: 0 <= i < j < |rows| ==> rows[i].id != rows[j].id)
    }

    /** Some stored row has primary key `id`. */
    predicate IdTaken(id: int)
      reads this
    {
      exists i :: 0 <= i < |rows| && rows[i].id == Some(id)
    }

    /** An empty table. */
    constructor ()
      ensures Valid() && rows == [] && nextId == 1
    {
      rows := [];
      nextId := 1;
    }

    /**
     * `get_weather_by_city_and_date`: a row matching both `city` and `date`
     * exactly, or `None` when the table has none. Reading only, it changes nothing.
     */
    function Lookup(city: string, date: DateTime): (r: Option<Weather>)
      reads this
      ensures r.Some? ==> r.value in rows && HasKey(r.value, city, date)
      ensures r.None? <==> forall i :: 0 <= i < |rows| ==> !HasKey(rows[i], city, date)
    {
      FindRow(rows, city, date)
    }

    /**
     * `db.add(row)`, `db.commit()`, `db.refresh(row)`. A row without an id gets
     * `nextId`; a row carrying an id keeps it unless that id is taken, which is
     * an integrity error at commit. `fault` says where the session raises: in
     * add or commit, leaving the table as it was, or in the refresh after the
     * commit, when the row is already stored. Nothing checks whether the
     * (city, date) key is already present.
     */
    method Add(row: Weather, fault: SessionFault) returns (r: Result<Weather, Error>)
      requires Valid()
      modifies this
      ensures Valid()
      ensures r.Ok? <==> fault == NoFault && !(row.id.Some? && old(IdTaken(row.id.value)))
      ensures r.Err? ==> r.error == (if fault != FailsBeforeCommit && row.id.Some? && old(IdTaken(row.id.value))
                                     then IntegrityError else DatabaseError)
      ensures !old(Commits(row, fault)) ==> rows == old(rows) && nextId == old(nextId)
      ensures old(Commits(row, fault)) ==>
                && rows == old(rows) + [Stored(row, old(nextId))]
                && !old(IdTaken(Stored(row, nextId).id.value))
                && nextId == (if row.id.None? then old(nextId) + 1
                              else if row.id.value < old(nextId) then old(nextId) else row.id.value + 1)
      ensures r.Ok? ==> r.value == Stored(row, old(nextId))
    {
      if fault == FailsBeforeCommit {
        return Err(DatabaseError);
      }
      match row.id
      case None =>
        var stored := row.(id := Some(nextId));
        rows := rows + [stored];
        nextId := nextId + 1;
        r := if fault == NoFault then Ok(stored) else Err(DatabaseError);
      case Some(k) =>
        if IdTaken(k) {
          r := Err(IntegrityError);
        } else {
          rows := rows + [row];
          nextId := if k < nextId then nextId else k + 1;
          r := if fault == NoFault then Ok(row) else Err(DatabaseError);
        }
    }

    /** Whether `Add(row, fault)` reaches a successful commit, given the current table. */
    predicate Commits(row: Weather, fault: SessionFault)
      reads this
    {
      fault != FailsBeforeCommit && !(row.id.Some? && IdTaken(row.id.value))
    }

    /**
     * `create_weather`: inserts one row carrying the six fields of `w` under
     * id `nextId` and returns it; duplicates of an existing (city, date) are
     * inserted like any other row. A session failure propagates as
     * `DatabaseError`: before the commit the table is unchanged, after it (in
     * the refresh) the row is stored all the same.
     */
    method CreateWeather(w: WeatherCreate, fault: SessionFault) returns (r: Result<Weather, Error>)
      requires Valid()
      modifies this
      ensures Valid()
      ensures r.Ok? <==> fault == NoFault
      ensures r.Err? ==> r.error == DatabaseError
      ensures r.Ok? ==> r.value == Inserted(w, old(nextId))
      ensures fault == FailsBeforeCommit ==> rows == old(rows) && nextId == old(nextId)
      ensures fault != FailsBeforeCommit ==>
                && rows == old(rows) + [Inserted(w, old(nextId))]
                && !old(IdTaken(nextId)) && nextId == old(nextId) + 1
      ensures fault != FailsBeforeCommit && old(Lookup(w.city, w.date)).None? ==>
                Lookup(w.city, w.date) == Some(Inserted(w, old(nextId)))
    {
      ghost var before := rows;
      r := Add(ToRow(w), fault);
      if fault != FailsBeforeCommit && FindRow(before, w.city, w.date).None? {
        FindAfterAppendAbsent(before, Inserted(w, old(nextId)), w.city, w.date);
      }
    }
  }
}
