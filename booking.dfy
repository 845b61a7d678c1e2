/**
 * The booking wizard of `src/pages/Booking.tsx`: the step machine with its
 * buttons, the confirmation dialog, and the effect that regenerates the
 * slots of the chosen day.  Leaving the wizard (a route change in the
 * source) is reported as an `exit` result.
 */
module BookingFlow {
  import opened Options
  import opened Dates
  import opened Slots
  import opened Catalog
  import opened Store

  /** The `BookingStep` enumeration. */
  const SERVICE := 0
  const DATE_TIME := 1
  const DETAILS := 2
  const CONFIRMATION := 3

  /** Some slot of `slots` has the id `id` (`slots.some(slot => slot.id === id)`). */
  predicate HasSlotId(slots: seq<TimeSlot>, id: DateTime)
  {
    exists i :: 0 <= i < |slots| && slots[i].id == id
  }

  class BookingPage {
    var currentStep: int
    var availableTimeSlots: seq<TimeSlot>
    var showConfirmation: bool
    const store: AppointmentStore

    constructor (store: AppointmentStore)
      ensures currentStep == SERVICE && availableTimeSlots == [] && !showConfirmation
      ensures this.store == store
    {
      this.store := store;
      currentStep := SERVICE;
      availableTimeSlots := [];
      showConfirmation := false;
    }

    /** `handleNextStep`: one step on, but never past CONFIRMATION. */
    method HandleNextStep()
      modifies this
      ensures currentStep == if old(currentStep) < CONFIRMATION then old(currentStep) + 1 else old(currentStep)
      ensures currentStep <= CONFIRMATION || currentStep == old(currentStep)
      ensures availableTimeSlots == old(availableTimeSlots) && showConfirmation == old(showConfirmation)
    {
      if currentStep < CONFIRMATION {
        currentStep := currentStep + 1;
      }
    }

    /** `handlePreviousStep`: one step back, or, at SERVICE, leave the wizard for the service list. */
    method HandlePreviousStep() returns (exit: bool)
      modifies this
      ensures old(currentStep) > SERVICE ==> currentStep == old(currentStep) - 1 && !exit
      ensures old(currentStep) <= SERVICE ==> currentStep == old(currentStep) && exit
      ensures currentStep >= SERVICE || currentStep == old(currentStep)
      ensures availableTimeSlots == old(availableTimeSlots) && showConfirmation == old(showConfirmation)
    {
      if currentStep > SERVICE {
        currentStep := currentStep - 1;
        exit := false;
      } else {
        exit := true;
      }
    }

    /** `canProceed`: a service is needed at SERVICE, a slot at DATE_TIME, nothing at the other steps. */
    function CanProceed(): (r: bool)
      reads this, store
      ensures currentStep == SERVICE ==> (r <==> store.selectedService.Some?)
      ensures currentStep == DATE_TIME ==> (r <==> store.selectedTimeSlot.Some?)
      ensures currentStep != SERVICE && currentStep != DATE_TIME ==> r
    {
      if currentStep == SERVICE then store.selectedService.Some?
      else if currentStep == DATE_TIME then store.selectedTimeSlot.Some?
      else true
    }

    /** `handleBookingComplete`: open the confirmation dialog. */
    method HandleBookingComplete()
      modifies this
      ensures showConfirmation
      ensures currentStep == old(currentStep) && availableTimeSlots == old(availableTimeSlots)
    {
      showConfirmation := true;
    }

    /**
     * The right-hand button: "Next" below DETAILS, "Complete Booking" at
     * DETAILS, disabled unless `canProceed`.  Through the buttons the step
     * stays between SERVICE and DETAILS.
     */
    method PressForwardButton()
      requires SERVICE <= currentStep <= DETAILS
      modifies this
      ensures SERVICE <= currentStep <= DETAILS
      ensures old(currentStep) < DETAILS && old(CanProceed()) ==> currentStep == old(currentStep) + 1 && showConfirmation == old(showConfirmation)
      ensures old(currentStep) == DETAILS && old(CanProceed()) ==> currentStep == DETAILS && showConfirmation
      ensures !old(CanProceed()) ==> currentStep == old(currentStep) && showConfirmation == old(showConfirmation)
      ensures availableTimeSlots == old(availableTimeSlots)
    {
      if !CanProceed() {
        return;
      }
      if currentStep < DETAILS {
        HandleNextStep();
      } else {
        HandleBookingComplete();
      }
    }

    /** The "Back" button keeps the step between SERVICE and DETAILS as well. */
    method PressBackButton() returns (exit: bool)
      requires SERVICE <= currentStep <= DETAILS
      modifies this
      ensures SERVICE <= currentStep <= DETAILS
      ensures old(currentStep) > SERVICE ==> currentStep == old(currentStep) - 1 && !exit
      ensures old(currentStep) == SERVICE ==> currentStep == SERVICE && exit
      ensures availableTimeSlots == old(availableTimeSlots) && showConfirmation == old(showConfirmation)
    {
      exit := HandlePreviousStep();
    }

    /** `handleCloseConfirmation`: close the dialog, clear the booking data, and leave for the appointment list. */
    method HandleCloseConfirmation() returns (exit: bool)
      modifies this, store
      ensures !showConfirmation && exit
      ensures store.BookingCleared()
      ensures store.appointments == old(store.appointments) && store.selectedDate == old(store.selectedDate)
      ensures currentStep == old(currentStep) && availableTimeSlots == old(availableTimeSlots)
    {
      showConfirmation := false;
      store.ClearBookingData();
      exit := true;
    }

    /**
     * The slot effect: with a service chosen, regenerate the slots of the
     * chosen day, and drop the chosen slot if no new slot has its id.
     * `isFree` stands for the random availability flags.
     */
    method RefreshSlots(isFree: int -> bool)
      requires store.selectedService.Some? ==> ValidDateTime(store.selectedDate) && store.selectedService.value.duration > 0
      modifies this, store
      ensures store.selectedService == old(store.selectedService) && store.selectedDate == old(store.selectedDate)
      ensures store.selectedService.None? ==>
                availableTimeSlots == old(availableTimeSlots) && store.selectedTimeSlot == old(store.selectedTimeSlot)
      ensures store.selectedService.Some? ==>
                var d := store.selectedService.value.duration;
                && availableTimeSlots == SlotsOn(store.selectedDate.date, SlotStarts(d), d, isFree)
                && (d < 480 ==> availableTimeSlots == SlotsOn(store.selectedDate.date, IntendedStarts(d), d, isFree))
                && store.selectedTimeSlot
                   == (if old(store.selectedTimeSlot).Some? && !HasSlotId(availableTimeSlots, old(store.selectedTimeSlot).value.id)
                       then None else old(store.selectedTimeSlot))
                && (store.selectedTimeSlot.None? || HasSlotId(availableTimeSlots, store.selectedTimeSlot.value.id))
      ensures store.appointments == old(store.appointments) && store.CustomerDetails() == old(store.CustomerDetails())
      ensures currentStep == old(currentStep) && showConfirmation == old(showConfirmation)
    {
      var service, selectedDate, selectedTimeSlot := store.selectedService, store.selectedDate, store.selectedTimeSlot;
      if service.Some? {
        var d := service.value.duration;
        var slots := GenerateTimeSlots(selectedDate, d, isFree);
        if d < 480 {
          AsWrittenAgreesBelow480(d);
        }
        availableTimeSlots := slots;
        if selectedTimeSlot.Some? && !HasSlotId(slots, selectedTimeSlot.value.id) {
          store.selectedTimeSlot := None;
        }
      }
    }

    /** A slot button of the time picker selects its slot only when the slot is available. */
    method SelectTimeSlot(slot: TimeSlot)
      modifies store
      ensures store.selectedTimeSlot == if slot.available then Some(slot) else old(store.selectedTimeSlot)
      ensures store.selectedService == old(store.selectedService) && store.selectedDate == old(store.selectedDate)
      ensures store.appointments == old(store.appointments) && store.CustomerDetails() == old(store.CustomerDetails())
    {
      if slot.available {
        store.SetSelectedTimeSlot(Some(slot));
      }
    }
  }
}
