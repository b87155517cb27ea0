/** The two sheets the form works on and the day-scoped queries over
    them: today's reservations (sheet `proveedor_reservas`), the orders
    whose arrival was registered today, the first management row of an
    order (sheet `proveedor_gestion`), and the status of an order. */
module Records {
  import opened Wrappers
  import opened Chars
  import opened Calendar
  import opened TimeText

  type OrderId = string

  /** A booked delivery: `Fecha`, `Hora` (the slot text), `Orden_de_compra`,
      `Proveedor`, `Numero_de_bultos`. `date` is the cell as text. */
  datatype Reservation = Reservation(date: string, slot: string, order: OrderId, supplier: string, packages: int)

  /** A management row: `Orden_de_compra`, `Proveedor`, `Numero_de_bultos`,
      `Hora_llegada`, `Hora_inicio_atencion`, `Hora_fin_atencion`,
      `Tiempo_espera`, `Tiempo_atencion`, `Tiempo_total`, `Tiempo_retraso`.
      Timestamps are kept as the text stored in the sheet; `None` is an
      empty cell. */
  datatype Record = Record(
    order: OrderId, supplier: string, packages: int,
    arrivalAt: Option<string>, serviceStart: Option<string>, serviceEnd: Option<string>,
    waitMinutes: Option<int>, serviceMinutes: Option<int>, totalMinutes: Option<int>,
    delayMinutes: Option<int>)

  /** The reservation's date cell mentions today's `YYYY-MM-DD`. */
  predicate BookedOn(r: Reservation, today: Date)
    requires ValidDate(today)
  {
    Contains(r.date, FormatDate(today))
  }

  /** The row's arrival cell mentions today's `YYYY-MM-DD`; an empty cell
      never does. */
  predicate ArrivedOn(r: Record, today: Date)
    requires ValidDate(today)
  {
    r.arrivalAt.Some? && Contains(r.arrivalAt.value, FormatDate(today))
  }

  /** app.py `get_today_reservations`: the reservations, in order, whose
      date cell contains today's date text. */
  function TodayReservations(rs: seq<Reservation>, today: Date): (r: seq<Reservation>)
    requires ValidDate(today)
    ensures |r| <= |rs|
    ensures forall x :: x in r ==> x in rs && BookedOn(x, today)
  {
    if rs == [] then []
    else (if BookedOn(rs[0], today) then [rs[0]] else []) + TodayReservations(rs[1..], today)
  }

  /** app.py `get_existing_arrivals`: the order ids, in table order, of the
      rows whose arrival cell contains today's date text. */
  function ExistingArrivals(rows: seq<Record>, today: Date): (r: seq<OrderId>)
    requires ValidDate(today)
    ensures |r| <= |rows|
  {
    if rows == [] then []
    else (if ArrivedOn(rows[0], today) then [rows[0].order] else []) + ExistingArrivals(rows[1..], today)
  }

  /** Index of the first row of order `id`, if there is one. */
  function FirstMatch(rows: seq<Record>, id: OrderId): (r: Option<nat>)
    ensures r.Some? ==> r.value < |rows| && rows[r.value].order == id
    ensures r.Some? ==> forall j :: 0 <= j < r.value ==> rows[j].order != id
    ensures r.None? <==> forall j :: 0 <= j < |rows| ==> rows[j].order != id
  {
    if rows == [] then None
    else if rows[0].order == id then Some(0)
    else
      match FirstMatch(rows[1..], id)
      case None => None
      case Some(k) => Some(k + 1)
  }

  predicate HasOrder(rows: seq<Record>, id: OrderId)
  {
    exists i :: 0 <= i < |rows| && rows[i].order == id
  }

  /** app.py `get_arrival_record`: the first row of order `id` on any day,
      or `None`. */
  function ArrivalRecord(rows: seq<Record>, id: OrderId): (r: Option<Record>)
    ensures r.Some? <==> HasOrder(rows, id)
    ensures r.Some? ==> exists i :: 0 <= i < |rows| && rows[i] == r.value && r.value.order == id
                                     && forall j :: 0 <= j < i ==> rows[j].order != id
  {
    match FirstMatch(rows, id)
    case None => None
    case Some(i) => Some(rows[i])
  }

  /** app.py lines 472-475: both service timestamps are present. */
  predicate ServiceRegistered(r: Record)
  {
    r.serviceStart.Some? && r.serviceEnd.Some?
  }

  /** The life cycle of an order on one day, derived from which cells are
      filled in, never stored. */
  datatype OrderStatus = NotArrived | AwaitingService | ServiceDone

  /** The status the form shows for order `id`: not in today's arrivals
      (app.py lines 347-350, "Pendiente de registro"), arrived but no
      service times on its first row ("Pendiente de registrar atención"),
      or both service times present ("Atención ya registrada"). */
  function Classify(rows: seq<Record>, today: Date, id: OrderId): (s: OrderStatus)
    requires ValidDate(today)
    ensures s == NotArrived <==> forall i :: 0 <= i < |rows| && rows[i].order == id ==> !ArrivedOn(rows[i], today)
    ensures s != NotArrived ==> HasOrder(rows, id)
    ensures s == ServiceDone <==> s != NotArrived && ServiceRegistered(ArrivalRecord(rows, id).value)
  {
    ExistingArrivalsMembership(rows, today, id);
    if id in ExistingArrivals(rows, today) then
      match ArrivalRecord(rows, id)
      case Some(r) => if ServiceRegistered(r) then ServiceDone else AwaitingService
      case None => NotArrived
    else NotArrived
  }

  // ---------------------------------------------------------------------
  // The filters keep exactly the matching rows, in order.
  // ---------------------------------------------------------------------

  lemma {:induction false} TodayReservationsComplete(rs: seq<Reservation>, today: Date, x: Reservation)
    requires ValidDate(today)
    ensures x in TodayReservations(rs, today) <==> x in rs && BookedOn(x, today)
  {
    if rs != [] {
      TodayReservationsComplete(rs[1..], today, x);
      assert rs == [rs[0]] + rs[1..];
    }
  }

  lemma {:induction false} TodayReservationsAppend(a: seq<Reservation>, b: seq<Reservation>, today: Date)
    requires ValidDate(today)
    ensures TodayReservations(a + b, today) == TodayReservations(a, today) + TodayReservations(b, today)
  {
    if a == [] {
      assert a + b == b;
    } else {
      assert (a + b)[0] == a[0] && (a + b)[1..] == a[1..] + b;
      TodayReservationsAppend(a[1..], b, today);
    }
  }

  lemma {:induction false} ExistingArrivalsMembership(rows: seq<Record>, today: Date, id: OrderId)
    requires ValidDate(today)
    ensures id in ExistingArrivals(rows, today) <==>
            exists i :: 0 <= i < |rows| && rows[i].order == id && ArrivedOn(rows[i], today)
  {
    if rows != [] {
      ExistingArrivalsMembership(rows[1..], today, id);
      if id in ExistingArrivals(rows[1..], today) {
        var i :| 0 <= i < |rows[1..]| && rows[1..][i].order == id && ArrivedOn(rows[1..][i], today);
        assert rows[i + 1] == rows[1..][i];
      }
      if exists i :: 0 <= i < |rows| && rows[i].order == id && ArrivedOn(rows[i], today) {
        var i :| 0 <= i < |rows| && rows[i].order == id && ArrivedOn(rows[i], today);
        if i > 0 {
          assert rows[1..][i - 1] == rows[i];
        }
      }
    }
  }

  lemma {:induction false} ExistingArrivalsAppend(a: seq<Record>, b: seq<Record>, today: Date)
    requires ValidDate(today)
    ensures ExistingArrivals(a + b, today) == ExistingArrivals(a, today) + ExistingArrivals(b, today)
  {
    if a == [] {
      assert a + b == b;
    } else {
      assert (a + b)[0] == a[0] && (a + b)[1..] == a[1..] + b;
      ExistingArrivalsAppend(a[1..], b, today);
    }
  }

  /** Rewriting cells other than the order id does not move an order's
      first row. */
  lemma {:induction false} FirstMatchSameOrders(a: seq<Record>, b: seq<Record>, id: OrderId)
    requires |a| == |b| && forall i :: 0 <= i < |a| ==> a[i].order == b[i].order
    ensures FirstMatch(a, id) == FirstMatch(b, id)
  {
    if a != [] {
      FirstMatchSameOrders(a[1..], b[1..], id);
    }
  }

  /** `get_arrival_record` is not day-scoped, but the status's "arrived"
      test is: an order whose only rows are from other days is not arrived. */
  lemma OtherDayIsNotArrived(r: Record, day: Date, today: Date)
    requires ValidDate(today) && ValidDate(day) && day != today
    requires r.arrivalAt.Some? && ParseDateTime(r.arrivalAt.value).Some?
    requires ParseDateTime(r.arrivalAt.value).value.date == day
    ensures Classify([r], today, r.order) == NotArrived
  {
    var s := r.arrivalAt.value;
    var dt := ParseDateTime(s).value;
    if ArrivedOn(r, today) {
      var i :| OccursAt(s, FormatDate(today), i);
      FormatParseDateTime(s);
      DateTextPosition(s, dt, today, i);
    }
  }
}
