/**
 * The "My Appointments" page of `src/pages/Appointments.tsx`: the four lists
 * it shows, the rule that offers cancelling, and the confirmation dialog.
 *
 * The source reads the clock separately in each filter; the model reads it
 * once, as `now`.  "Before now" compares start times as timestamps.
 */
module AppointmentLists {
  import opened Options
  import opened Seqs
  import opened Dates
  import opened Store

  /** The start of an appointment's slot is earlier than `now`. */
  predicate StartsBefore(a: Appointment, now: DateTime)
  {
    Before(a.timeSlot.startTime, now)
  }

  /** Not cancelled. */
  function ActiveAppointments(apps: seq<Appointment>): (r: seq<Appointment>)
    ensures forall a :: a in r <==> a in apps && a.status != Cancelled
    ensures Subsequence(r, apps)
  {
    Filter(apps, (a: Appointment) => a.status != Cancelled)
  }

  /** Started before `now` and not cancelled. */
  function PastAppointments(apps: seq<Appointment>, now: DateTime): (r: seq<Appointment>)
    ensures forall a :: a in r <==> a in apps && StartsBefore(a, now) && a.status != Cancelled
    ensures Subsequence(r, apps)
  {
    Filter(apps, (a: Appointment) => StartsBefore(a, now) && a.status != Cancelled)
  }

  /** The active appointments that start at or after `now`. */
  function UpcomingAppointments(apps: seq<Appointment>, now: DateTime): (r: seq<Appointment>)
    ensures forall a :: a in r <==> a in apps && a.status != Cancelled && !StartsBefore(a, now)
  {
    Filter(ActiveAppointments(apps), (a: Appointment) => !StartsBefore(a, now))
  }

  function CancelledAppointments(apps: seq<Appointment>): (r: seq<Appointment>)
    ensures forall a :: a in r <==> a in apps && a.status == Cancelled
    ensures Subsequence(r, apps)
  {
    Filter(apps, (a: Appointment) => a.status == Cancelled)
  }

  /** Every appointment is either active or cancelled, and each list keeps the order of the store. */
  lemma ActiveCancelledPartition(apps: seq<Appointment>)
    ensures multiset(ActiveAppointments(apps)) + multiset(CancelledAppointments(apps)) == multiset(apps)
  {
    FilterPartition(apps, (a: Appointment) => a.status != Cancelled, (a: Appointment) => a.status == Cancelled);
  }

  /** For one `now`, the past and the upcoming appointments split the active ones. */
  lemma PastUpcomingPartition(apps: seq<Appointment>, now: DateTime)
    ensures multiset(PastAppointments(apps, now)) + multiset(UpcomingAppointments(apps, now))
         == multiset(ActiveAppointments(apps))
  {
    var active := ActiveAppointments(apps);
    FilterTwice(apps, (a: Appointment) => StartsBefore(a, now), (a: Appointment) => a.status != Cancelled,
                (a: Appointment) => StartsBefore(a, now) && a.status != Cancelled);
    FilterPartition(active, (a: Appointment) => StartsBefore(a, now), (a: Appointment) => !StartsBefore(a, now));
  }

  /** The upcoming list is also in store order. */
  lemma UpcomingInOrder(apps: seq<Appointment>, now: DateTime)
    ensures Subsequence(UpcomingAppointments(apps, now), apps)
  {
    SubsequenceTransitive(UpcomingAppointments(apps, now), ActiveAppointments(apps), apps);
  }

  lemma {:induction false} SubsequenceTransitive<T>(xs: seq<T>, ys: seq<T>, zs: seq<T>)
    requires Subsequence(xs, ys) && Subsequence(ys, zs)
    ensures Subsequence(xs, zs)
    decreases |zs|
  {
    if xs != [] && zs != [] {
      if ys[0] == zs[0] && Subsequence(ys[1..], zs[1..]) {
        if xs[0] == ys[0] && Subsequence(xs[1..], ys[1..]) {
          SubsequenceTransitive(xs[1..], ys[1..], zs[1..]);
        } else {
          SubsequenceTransitive(xs, ys[1..], zs[1..]);
        }
      } else {
        SubsequenceTransitive(xs, ys, zs[1..]);
      }
    }
  }

  // ---------------------------------------------------------------------------
  // The cancel button (src/pages/Appointments.tsx:119-130)
  // ---------------------------------------------------------------------------

  /** A card offers cancelling unless it is drawn as cancelled or its start has passed. */
  predicate CancelOffered(a: Appointment, drawnCancelled: bool, now: DateTime)
  {
    !drawnCancelled && !StartsBefore(a, now)
  }

  /**
   * The upcoming cards are drawn as not cancelled and the cancelled cards as
   * cancelled; so cancelling is offered on every upcoming card and on no
   * past or cancelled card, hence only for active appointments yet to start.
   */
  lemma CancelOfferedOnlyWhenUpcoming(apps: seq<Appointment>, now: DateTime, a: Appointment)
    ensures a in UpcomingAppointments(apps, now) ==> CancelOffered(a, false, now) && a.status != Cancelled
    ensures a in PastAppointments(apps, now) ==> !CancelOffered(a, false, now)
    ensures a in CancelledAppointments(apps) ==> !CancelOffered(a, true, now) && a !in UpcomingAppointments(apps, now)
  {
  }

  // ---------------------------------------------------------------------------
  // The confirmation dialog (src/pages/Appointments.tsx:14-15, 36-47)
  // ---------------------------------------------------------------------------

  class AppointmentsPage {
    var selectedAppointmentId: Option<string>
    var showCancelModal: bool

    constructor ()
      ensures selectedAppointmentId == None && !showCancelModal
    {
      selectedAppointmentId := None;
      showCancelModal := false;
    }

    /** `handleCancelClick`: remember the appointment and open the dialog. */
    method HandleCancelClick(appointmentId: string)
      modifies this
      ensures selectedAppointmentId == Some(appointmentId) && showCancelModal
    {
      selectedAppointmentId := Some(appointmentId);
      showCancelModal := true;
    }

    /** "Keep Appointment" and closing the dialog: it closes and nothing else changes. */
    method DismissCancelModal()
      modifies this
      ensures !showCancelModal && selectedAppointmentId == old(selectedAppointmentId)
    {
      showCancelModal := false;
    }

    /**
     * `confirmCancelAppointment`: with an id selected (the empty string is
     * falsy and counts as none), the store cancels it and the dialog closes;
     * otherwise nothing changes.
     */
    method ConfirmCancelAppointment(store: AppointmentStore)
      modifies this, store
      ensures selectedAppointmentId == old(selectedAppointmentId)
      ensures old(selectedAppointmentId).Some? && old(selectedAppointmentId).value != "" ==>
                && store.appointments == CancelById(old(store.appointments), old(selectedAppointmentId).value)
                && !showCancelModal
      ensures old(selectedAppointmentId).None? || old(selectedAppointmentId).value == "" ==>
                store.appointments == old(store.appointments) && showCancelModal == old(showCancelModal)
      ensures store.selectedService == old(store.selectedService) && store.selectedTimeSlot == old(store.selectedTimeSlot)
      ensures store.selectedDate == old(store.selectedDate) && store.CustomerDetails() == old(store.CustomerDetails())
    {
      if selectedAppointmentId.Some? && selectedAppointmentId.value != "" {
        store.CancelAppointment(selectedAppointmentId.value);
        showCancelModal := false;
      }
    }
  }
}
