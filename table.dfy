/** The management sheet (`proveedor_gestion`) as the form changes it:
    pandas' masked column writes `gestion_df.loc[mask, col] = v` overwrite
    the selected cells of the existing rows in place, and `pd.concat`
    builds a new, one-row-longer table. */
module Table {
  import opened Wrappers
  import opened Chars
  import opened Calendar
  import opened TimeText
  import opened Records
  import opened Engine

  /** A row after app.py lines 234-238 wrote the service data into it. */
  function Serviced(r: Record, s: ServiceData): (r': Record)
    ensures r'.order == r.order && r'.supplier == r.supplier && r'.packages == r.packages
    ensures r'.arrivalAt == r.arrivalAt && r'.delayMinutes == r.delayMinutes
    ensures r'.serviceStart == Some(s.start) && r'.serviceEnd == Some(s.end)
    ensures r'.waitMinutes == Some(s.wait) && r'.serviceMinutes == Some(s.service) && r'.totalMinutes == Some(s.total)
    ensures ServiceRegistered(r')
  {
    r.(serviceStart := Some(s.start), serviceEnd := Some(s.end),
       waitMinutes := Some(s.wait), serviceMinutes := Some(s.service), totalMinutes := Some(s.total))
  }

  /** Every row of order `id` after its `Hora_llegada` cell was set to
      `v` (app.py lines 203-206). */
  function WithArrival(rows: seq<Record>, id: OrderId, v: Option<string>): (r: seq<Record>)
    ensures |r| == |rows|
    ensures forall i :: 0 <= i < |rows| ==>
              r[i] == if rows[i].order == id then rows[i].(arrivalAt := v) else rows[i]
  {
    seq(|rows|, i requires 0 <= i < |rows| => if rows[i].order == id then rows[i].(arrivalAt := v) else rows[i])
  }

  /** Every row of order `id` after the service data `s` was written into
      it (app.py lines 234-238). */
  function WithService(rows: seq<Record>, id: OrderId, s: ServiceData): (r: seq<Record>)
    ensures |r| == |rows|
    ensures forall i :: 0 <= i < |rows| ==>
              r[i] == if rows[i].order == id then Serviced(rows[i], s) else rows[i]
  {
    seq(|rows|, i requires 0 <= i < |rows| => if rows[i].order == id then Serviced(rows[i], s) else rows[i])
  }

  /** Re-registering an arrival today leaves the order arrived, and its
      service state is whatever its first row already held: an order id
      whose first row was completed on another day is at once completed. */
  lemma StatusAfterUpsert(before: seq<Record>, after: seq<Record>, today: Date, id: OrderId, v: Option<string>)
    requires ValidDate(today) && HasOrder(before, id)
    requires v.Some? && Contains(v.value, FormatDate(today))
    requires after == WithArrival(before, id, v)
    ensures Classify(after, today, id) ==
              if ServiceRegistered(ArrivalRecord(before, id).value) then ServiceDone else AwaitingService
  {
    FirstMatchSameOrders(before, after, id);
    var k := FirstMatch(before, id).value;
    assert ArrivedOn(after[k], today);
  }

  /** A first arrival appends a row that is arrived and awaiting service. */
  lemma StatusAfterAppend(before: seq<Record>, today: Date, row: Record)
    requires ValidDate(today) && !HasOrder(before, row.order)
    requires ArrivedOn(row, today) && !ServiceRegistered(row)
    ensures Classify(before + [row], today, row.order) == AwaitingService
  {
    var after := before + [row];
    assert after[|before|] == row;
    assert FirstMatch(after, row.order) == Some(|before|);
  }

  /** Writing service data to the rows of an order that arrived today
      completes it. */
  lemma ServiceCompletes(before: seq<Record>, after: seq<Record>, today: Date, id: OrderId, s: ServiceData)
    requires ValidDate(today) && Classify(before, today, id) != NotArrived
    requires after == WithService(before, id, s)
    ensures Classify(after, today, id) == ServiceDone
  {
    FirstMatchSameOrders(before, after, id);
    var k := FirstMatch(before, id).value;
    assert after[k] == Serviced(before[k], s);
    var j :| 0 <= j < |before| && before[j].order == id && ArrivedOn(before[j], today);
    assert ArrivedOn(after[j], today);
  }

  /** What the service tab decides for order `id` (app.py lines 454-569)
      before anything is written. */
  function ServiceDecision(rows: seq<Record>, today: Date, id: OrderId, start: TimeOfDay, end: TimeOfDay)
    : (r: Result<ServiceData, ServiceError>)
    requires ValidDate(today) && ValidTime(start) && ValidTime(end)
    ensures Classify(rows, today, id) == NotArrived ==> r == Failure(NoArrivalToday)
    ensures Classify(rows, today, id) == ServiceDone ==> r == Failure(AlreadyRegistered)
    ensures Classify(rows, today, id) == AwaitingService ==>
              r == ServiceTimes(ArrivalRecord(rows, id).value.arrivalAt, today, start, end)
    ensures r.Success? ==> Classify(rows, today, id) == AwaitingService
  {
    match Classify(rows, today, id)
    case NotArrived => Failure(NoArrivalToday)
    case ServiceDone => Failure(AlreadyRegistered)
    case AwaitingService => ServiceTimes(ArrivalRecord(rows, id).value.arrivalAt, today, start, end)
  }

  class ManagementTable {
    var data: array<Record>

    function Rows(): seq<Record>
      reads this, data
    {
      data[..]
    }

    constructor (initial: seq<Record>)
      ensures Rows() == initial && fresh(data)
    {
      data := new Record[|initial|](i requires 0 <= i < |initial| => initial[i]);
    }

    /** The table part of app.py `save_arrival_to_excel` (lines 199-211).
        If the order already has a row, `Hora_llegada` of every row of the
        order is overwritten and nothing else changes, not even the stale
        `Tiempo_retraso`; otherwise the new row is appended. */
    method SaveArrival(arrival: Record)
      modifies this, data
      ensures data == old(data) || fresh(data)
      ensures HasOrder(old(Rows()), arrival.order) ==>
                data == old(data) && Rows() == WithArrival(old(Rows()), arrival.order, arrival.arrivalAt)
      ensures HasOrder(old(Rows()), arrival.order) ==>
                forall i :: 0 <= i < |Rows()| ==> Rows()[i].delayMinutes == old(Rows())[i].delayMinutes
      ensures !HasOrder(old(Rows()), arrival.order) ==> fresh(data) && Rows() == old(Rows()) + [arrival]
    {
      var existing := ArrivalRecord(data[..], arrival.order);
      if existing.Some? {
        ghost var before := data[..];
        forall i | 0 <= i < data.Length && data[i].order == arrival.order {
          data[i] := data[i].(arrivalAt := arrival.arrivalAt);
        }
        assert data[..] == WithArrival(before, arrival.order, arrival.arrivalAt);
      } else {
        var prev, n := data, data.Length;
        data := new Record[n + 1](i requires 0 <= i <= n reads prev => if i < n then prev[i] else arrival);
      }
    }

    /** The table part of app.py `update_service_times` (lines 224-238):
        refused, with the table unchanged, when no row has the order (an
        empty table has none); otherwise the five service cells of every row
        of the order are overwritten, whether or not they were filled in
        already. */
    method UpdateServiceTimes(id: OrderId, s: ServiceData) returns (ok: bool)
      modifies data
      ensures ok <==> HasOrder(old(Rows()), id)
      ensures Rows() == if ok then WithService(old(Rows()), id, s) else old(Rows())
    {
      if data.Length == 0 {
        return false;
      }
      if FirstMatch(data[..], id).None? {
        return false;
      }
      ghost var before := data[..];
      forall i | 0 <= i < data.Length && data[i].order == id {
        data[i] := Serviced(data[i], s);
      }
      assert data[..] == WithService(before, id, s);
      ok := true;
    }

    /** The "Guardar Llegada" action (app.py lines 399-431): build the row
        for an arrival at `t` today and save it. Afterwards the order is no
        longer "not arrived". */
    method RegisterArrival(res: Reservation, today: Date, t: TimeOfDay)
      requires ValidDate(today) && ValidTime(t)
      modifies this, data
      ensures data == old(data) || fresh(data)
      ensures Classify(Rows(), today, res.order) ==
                if HasOrder(old(Rows()), res.order) && ServiceRegistered(old(ArrivalRecord(Rows(), res.order)).value)
                then ServiceDone else AwaitingService
      ensures HasOrder(old(Rows()), res.order) ==>
                Rows() == WithArrival(old(Rows()), res.order, ArrivalData(res, today, t).arrivalAt)
      ensures !HasOrder(old(Rows()), res.order) ==> Rows() == old(Rows()) + [ArrivalData(res, today, t)]
    {
      var before := data[..];
      var row := ArrivalData(res, today, t);
      SaveArrival(row);
      if HasOrder(before, res.order) {
        StatusAfterUpsert(before, data[..], today, res.order, row.arrivalAt);
      } else {
        StatusAfterAppend(before, today, row);
      }
    }

    /** The "Guardar Atención" action (app.py lines 461-573): only for an
        order that arrived today and has no service times yet; the times
        are validated against the order's first row and, if accepted,
        written to every row of the order, which is then completed. */
    method RegisterService(today: Date, id: OrderId, start: TimeOfDay, end: TimeOfDay)
      returns (r: Result<ServiceData, ServiceError>)
      requires ValidDate(today) && ValidTime(start) && ValidTime(end)
      modifies data
      ensures r == ServiceDecision(old(Rows()), today, id, start, end)
      ensures Rows() == if r.Success? then WithService(old(Rows()), id, r.value) else old(Rows())
      ensures r.Success? ==> Classify(Rows(), today, id) == ServiceDone
    {
      var before := data[..];
      r := ServiceDecision(before, today, id, start, end);
      if r.Success? {
        var ok := UpdateServiceTimes(id, r.value);
        ServiceCompletes(before, data[..], today, id, r.value);
      }
    }
  }

  /** Registering the same order twice on an empty table keeps one row,
      with the later arrival time and the delay of the first. */
  method ArrivalTwice(res: Reservation, today: Date, first: TimeOfDay, second: TimeOfDay) returns (rows: seq<Record>)
    requires ValidDate(today) && ValidTime(first) && ValidTime(second)
    ensures |rows| == 1 && rows[0].order == res.order
    ensures rows[0].arrivalAt == ArrivalData(res, today, second).arrivalAt
    ensures rows[0].delayMinutes == ArrivalDelay(today, res.slot, first)
  {
    var table := new ManagementTable([]);
    table.RegisterArrival(res, today, first);
    assert table.Rows()[0].order == res.order;
    table.RegisterArrival(res, today, second);
    rows := table.Rows();
  }
}
