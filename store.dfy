/**
 * The appointment store of `src/context/AppointmentContext.tsx`: the list of
 * booked appointments and the fields of the booking in progress, with the
 * three operations that change them together.
 */
module Store {
  import opened Options
  import opened Dates
  import opened Catalog
  import opened Slots

  datatype Status = Scheduled | Completed | Cancelled

  /** A booked appointment; the source's ISO time strings are `DateTime`s here. */
  datatype Appointment = Appointment(
    id: string,
    serviceId: string,
    date: DateTime,
    timeSlot: TimeSlot,
    customerName: string,
    customerEmail: string,
    customerPhone: string,
    notes: string,
    status: Status)

  /**
   * The list after cancelling `id`: every entry with that id is marked
   * cancelled, with its other fields kept; the rest are left alone.
   */
  function CancelById(apps: seq<Appointment>, id: string): (r: seq<Appointment>)
    ensures |r| == |apps|
    ensures forall i :: 0 <= i < |apps| && apps[i].id == id ==> r[i] == apps[i].(status := Cancelled)
    ensures forall i :: 0 <= i < |apps| && apps[i].id != id ==> r[i] == apps[i]
  {
    if apps == [] then []
    else [if apps[0].id == id then apps[0].(status := Cancelled) else apps[0]] + CancelById(apps[1..], id)
  }

  /** Cancelling twice is cancelling once. */
  lemma CancelIdempotent(apps: seq<Appointment>, id: string)
    ensures CancelById(CancelById(apps, id), id) == CancelById(apps, id)
  {
    var once := CancelById(apps, id);
    assert forall i :: 0 <= i < |once| ==> once[i].id == apps[i].id;
  }

  /** Cancelling an id no appointment carries changes nothing. */
  lemma CancelUnknownId(apps: seq<Appointment>, id: string)
    requires forall a :: a in apps ==> a.id != id
    ensures CancelById(apps, id) == apps
  {
  }

  /** Cancelling never revives an appointment, and afterwards every entry with the id is cancelled. */
  lemma CancelStatuses(apps: seq<Appointment>, id: string)
    ensures forall i :: 0 <= i < |apps| ==>
              (CancelById(apps, id)[i].status == Cancelled <==> apps[i].status == Cancelled || apps[i].id == id)
  {
  }

  /**
   * The provider's state.  Appointments are loaded from and saved to
   * browser storage in the source; here the list starts empty.
   */
  class AppointmentStore {
    var appointments: seq<Appointment>
    var selectedService: Option<Service>
    var selectedDate: DateTime
    var selectedTimeSlot: Option<TimeSlot>
    var customerName: string
    var customerEmail: string
    var customerPhone: string
    var notes: string

    /** No booking is in progress: no service, no slot, empty customer fields. */
    predicate BookingCleared()
      reads this
    {
      selectedService.None? && selectedTimeSlot.None?
      && customerName == "" && customerEmail == "" && customerPhone == "" && notes == ""
    }

    /** The initial state; `today` stands for the clock read `new Date()`. */
    constructor (today: DateTime)
      ensures appointments == [] && selectedDate == today && BookingCleared()
    {
      appointments := [];
      selectedService := None;
      selectedDate := today;
      selectedTimeSlot := None;
      customerName := "";
      customerEmail := "";
      customerPhone := "";
      notes := "";
    }

    /** The appointment that `bookAppointment` would add, with `id` for the random UUID. */
    function NewAppointment(id: string): (a: Appointment)
      requires selectedService.Some? && selectedTimeSlot.Some?
      reads this
      ensures a.id == id && a.status == Scheduled
      ensures a.serviceId == selectedService.value.id && a.timeSlot == selectedTimeSlot.value && a.date == selectedDate
      ensures a.customerName == customerName && a.customerEmail == customerEmail
      ensures a.customerPhone == customerPhone && a.notes == notes
    {
      Appointment(id, selectedService.value.id, selectedDate, selectedTimeSlot.value,
                  customerName, customerEmail, customerPhone, notes, Scheduled)
    }

    /**
     * `bookAppointment`: without a service or a slot nothing happens;
     * otherwise the new appointment is appended and the booking data cleared.
     */
    method BookAppointment(newId: string)
      modifies this
      ensures old(selectedService).None? || old(selectedTimeSlot).None? ==>
                && appointments == old(appointments)
                && selectedService == old(selectedService) && selectedTimeSlot == old(selectedTimeSlot)
                && customerName == old(customerName) && customerEmail == old(customerEmail)
                && customerPhone == old(customerPhone) && notes == old(notes)
      ensures old(selectedService).Some? && old(selectedTimeSlot).Some? ==>
                && appointments == old(appointments) + [old(NewAppointment(newId))]
                && BookingCleared()
      ensures selectedDate == old(selectedDate)
    {
      if selectedService.None? || selectedTimeSlot.None? {
        return;
      }
      var newAppointment := NewAppointment(newId);
      appointments := appointments + [newAppointment];
      ClearBookingData();
    }

    /** `cancelAppointment`: only the list changes. */
    method CancelAppointment(id: string)
      modifies this
      ensures appointments == CancelById(old(appointments), id)
      ensures selectedService == old(selectedService) && selectedDate == old(selectedDate)
      ensures selectedTimeSlot == old(selectedTimeSlot)
      ensures customerName == old(customerName) && customerEmail == old(customerEmail)
      ensures customerPhone == old(customerPhone) && notes == old(notes)
    {
      appointments := CancelById(appointments, id);
    }

    /** `clearBookingData`: the booking fields are reset; the list and the date are kept. */
    method ClearBookingData()
      modifies this
      ensures BookingCleared()
      ensures appointments == old(appointments) && selectedDate == old(selectedDate)
    {
      selectedService := None;
      selectedTimeSlot := None;
      customerName := "";
      customerEmail := "";
      customerPhone := "";
      notes := "";
    }

    /** The four customer fields the booking form fills in. */
    function CustomerDetails(): (string, string, string, string)
      reads this
    {
      (customerName, customerEmail, customerPhone, notes)
    }

    method SetSelectedService(service: Option<Service>)
      modifies this
      ensures selectedService == service
      ensures appointments == old(appointments) && selectedDate == old(selectedDate)
      ensures selectedTimeSlot == old(selectedTimeSlot) && CustomerDetails() == old(CustomerDetails())
    {
      selectedService := service;
    }

    method SetSelectedDate(date: DateTime)
      modifies this
      ensures selectedDate == date
      ensures appointments == old(appointments) && selectedService == old(selectedService)
      ensures selectedTimeSlot == old(selectedTimeSlot) && CustomerDetails() == old(CustomerDetails())
    {
      selectedDate := date;
    }

    method SetSelectedTimeSlot(slot: Option<TimeSlot>)
      modifies this
      ensures selectedTimeSlot == slot
      ensures appointments == old(appointments) && selectedService == old(selectedService)
      ensures selectedDate == old(selectedDate) && CustomerDetails() == old(CustomerDetails())
    {
      selectedTimeSlot := slot;
    }
  }
}
