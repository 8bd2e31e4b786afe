/** The Ticket Bookings page: the per-tier rate table, the total-price
    expression, the guest counters, the Book Now enabling rule, and the
    booking dialog driven by the six pieces of component state. */
module TicketBookings {

  datatype Option<T> = None | Some(value: T)

  /** A day chosen in the date picker. The page only asks whether one is chosen. */
  datatype CalendarDay = CalendarDay(ordinal: int)

  datatype Rates = Rates(adult: nat, child: nat)

  /** `ticketPrices`. */
  const TicketPrices: map<string, Rates> := map[
    "water-park" := Rates(25, 15),
    "agro-tour" := Rates(20, 12),
    "combo" := Rates(40, 25)
  ]

  /** The ids of the three selectable cards in `ticketTypes`, in display order. */
  const TicketTypeIds: seq<string> := ["water-park", "agro-tour", "combo"]

  /** Every selectable card has a price entry, and every price entry a card. */
  lemma TicketTypesArePriced()
    ensures forall id :: id in TicketTypeIds <==> id in TicketPrices
    ensures forall id :: id in TicketPrices ==> TicketPrices[id].adult > 0 && TicketPrices[id].child > 0
  {
  }

  /** `ticketType && ticketPrices[ticketType]`: a non-empty tier that has a rate entry. */
  predicate IsPricedTier(ticketType: string) {
    ticketType != "" && ticketType in TicketPrices
  }

  /** `totalPrice`: adults at the adult rate plus children at the child rate, or 0 without a priced tier. */
  function TotalPrice(ticketType: string, adults: int, children: int): (total: int)
    ensures !IsPricedTier(ticketType) ==> total == 0
  {
    if IsPricedTier(ticketType) then
      adults * TicketPrices[ticketType].adult + children * TicketPrices[ticketType].child
    else
      0
  }

  /** One adult costs the adult rate and one child the child rate. */
  lemma PerHeadRates(ticketType: string)
    requires IsPricedTier(ticketType)
    ensures TotalPrice(ticketType, 1, 0) == TicketPrices[ticketType].adult
    ensures TotalPrice(ticketType, 0, 1) == TicketPrices[ticketType].child
  {
  }

  /** The total is the sum of per-head prices: linear in both counts. */
  lemma TotalIsSumOfPerHeadPrices(ticketType: string, adults: int, children: int)
    ensures TotalPrice(ticketType, adults, children) ==
            adults * TotalPrice(ticketType, 1, 0) + children * TotalPrice(ticketType, 0, 1)
  {
  }

  /** Combo with 2 adults and 1 child: 2 * 40 + 1 * 25. */
  lemma ComboExample()
    ensures TotalPrice("combo", 2, 1) == 105
  {
  }

  /** Nobody to pay for costs nothing, whatever the tier. */
  lemma NoGuestsNoCharge(ticketType: string)
    ensures TotalPrice(ticketType, 0, 0) == 0
  {
  }

  /** An empty or unknown tier costs nothing, whatever the counts. */
  lemma UnpricedTierTotalZero(ticketType: string, adults: int, children: int)
    requires ticketType !in TicketPrices
    ensures TotalPrice(ticketType, adults, children) == 0
  {
  }

  /** With at least one adult and no negative child count, a priced tier costs at least its adult rate. */
  lemma TotalAtLeastAdultRate(ticketType: string, adults: int, children: int)
    requires IsPricedTier(ticketType) && adults >= AdultMin && children >= ChildMin
    ensures TotalPrice(ticketType, adults, children) >= TicketPrices[ticketType].adult > 0
  {
    var r := TicketPrices[ticketType];
    assert adults * r.adult >= r.adult by {
      assert (adults - 1) * r.adult >= 0;
    }
    assert children * r.child >= 0;
  }

  /** Within the counters' bounds the total is 0 exactly when no priced tier is chosen. */
  lemma TotalZeroIffUnpriced(ticketType: string, adults: int, children: int)
    requires adults >= AdultMin && children >= ChildMin
    ensures TotalPrice(ticketType, adults, children) == 0 <==> !IsPricedTier(ticketType)
  {
    if IsPricedTier(ticketType) {
      TotalAtLeastAdultRate(ticketType, adults, children);
    }
  }

  /** One more adult adds one adult rate; one more child adds one child rate. */
  lemma IncrementAddsOneRate(ticketType: string, adults: int, children: int)
    ensures TotalPrice(ticketType, adults + 1, children) == TotalPrice(ticketType, adults, children) + TotalPrice(ticketType, 1, 0)
    ensures TotalPrice(ticketType, adults, children + 1) == TotalPrice(ticketType, adults, children) + TotalPrice(ticketType, 0, 1)
  {
  }

  /** The minimum of the adults counter (`min={1}`). */
  const AdultMin := 1
  /** The minimum of the children counter (the default `min = 0`). */
  const ChildMin := 0

  /** The minus button's `onChange(Math.max(min, value - 1))`. */
  function CounterDecrement(value: int, min: int): (r: int)
    ensures r >= min
    ensures value > min ==> r == value - 1
    ensures value <= min ==> r == min
  {
    if value - 1 < min then min else value - 1
  }

  /** The minus button's `disabled={value <= min}`. */
  predicate DecrementDisabled(value: int, min: int) {
    value <= min
  }

  /** For a counter within its bound, the minus button is disabled exactly when pressing it would change nothing. */
  lemma DecrementDisabledIffNoEffect(value: int, min: int)
    requires value >= min
    ensures DecrementDisabled(value, min) <==> CounterDecrement(value, min) == value
  {
  }

  /** The Book Now button's `disabled={!ticketType || !date || totalPrice === 0}`, negated. */
  predicate BookNowEnabled(ticketType: string, date: Option<CalendarDay>, total: int) {
    !(ticketType == "" || date.None? || total == 0)
  }

  /** Within the counters' bounds Book Now is enabled exactly when a priced tier and a date are chosen. */
  lemma BookNowRule(ticketType: string, date: Option<CalendarDay>, adults: int, children: int)
    requires adults >= AdultMin && children >= ChildMin
    ensures BookNowEnabled(ticketType, date, TotalPrice(ticketType, adults, children)) <==>
            IsPricedTier(ticketType) && date.Some?
  {
    TotalZeroIffUnpriced(ticketType, adults, children);
  }

  /** What the dialog shows: nothing while closed, the spinner while success is unset, the confirmation once it is set. */
  datatype DialogView = Hidden | Processing | Confirmed

  function View(showBookingDialog: bool, bookingSuccess: bool): DialogView {
    if !showBookingDialog then Hidden
    else if bookingSuccess then Confirmed
    else Processing
  }

  /** The form part of the state: everything the dialog does not own. */
  datatype Draft = Draft(ticketType: string, date: Option<CalendarDay>, adults: int, children: int)

  const InitialDraft := Draft("", None, 1, 0)

  /** The component's six `useState` variables, plus the browser's queue of
      `setTimeout` callbacks that `handleBookNow` has scheduled and that have
      not yet run. */
  class BookingForm {
    var ticketType: string
    var date: Option<CalendarDay>
    var adults: int
    var children: int
    var showBookingDialog: bool
    var bookingSuccess: bool
    var pendingTimers: nat

    /** The counters never leave their bounds. */
    ghost predicate Valid()
      reads this
    {
      adults >= AdultMin && children >= ChildMin
    }

    function Form(): Draft
      reads this
    {
      Draft(ticketType, date, adults, children)
    }

    function Total(): int
      reads this
    {
      TotalPrice(ticketType, adults, children)
    }

    function CanBookNow(): bool
      reads this
    {
      BookNowEnabled(ticketType, date, Total())
    }

    function Dialog(): DialogView
      reads this
    {
      View(showBookingDialog, bookingSuccess)
    }

    /** The six initial `useState` values; no timer is pending. */
    constructor ()
      ensures Valid()
      ensures Form() == InitialDraft && !showBookingDialog && !bookingSuccess
      ensures pendingTimers == 0
    {
      ticketType := "";
      date := None;
      adults := 1;
      children := 0;
      showBookingDialog := false;
      bookingSuccess := false;
      pendingTimers := 0;
    }

    /** Clicking a ticket card: `setTicketType(type.id)`. */
    method SelectTicketType(id: string)
      requires Valid()
      modifies this
      ensures Valid()
      ensures Form() == old(Form()).(ticketType := id)
      ensures showBookingDialog == old(showBookingDialog) && bookingSuccess == old(bookingSuccess)
      ensures pendingTimers == old(pendingTimers)
    {
      ticketType := id;
    }

    /** The calendar's `onSelect={setDate}`: a day, or `None` when the chosen day is clicked again. */
    method SelectDate(d: Option<CalendarDay>)
      requires Valid()
      modifies this
      ensures Valid()
      ensures Form() == old(Form()).(date := d)
      ensures showBookingDialog == old(showBookingDialog) && bookingSuccess == old(bookingSuccess)
      ensures pendingTimers == old(pendingTimers)
    {
      date := d;
    }

    /** The adults counter's minus button. */
    method DecrementAdults()
      requires Valid()
      modifies this
      ensures Valid()
      ensures Form() == old(Form()).(adults := CounterDecrement(old(adults), AdultMin))
      ensures showBookingDialog == old(showBookingDialog) && bookingSuccess == old(bookingSuccess)
      ensures pendingTimers == old(pendingTimers)
    {
      adults := CounterDecrement(adults, AdultMin);
    }

    /** The adults counter's plus button; the total grows by one adult rate. */
    method IncrementAdults()
      requires Valid()
      modifies this
      ensures Valid()
      ensures Form() == old(Form()).(adults := old(adults) + 1)
      ensures Total() == old(Total()) + TotalPrice(ticketType, 1, 0)
      ensures showBookingDialog == old(showBookingDialog) && bookingSuccess == old(bookingSuccess)
      ensures pendingTimers == old(pendingTimers)
    {
      IncrementAddsOneRate(ticketType, adults, children);
      adults := adults + 1;
    }

    /** The children counter's minus button. */
    method DecrementChildren()
      requires Valid()
      modifies this
      ensures Valid()
      ensures Form() == old(Form()).(children := CounterDecrement(old(children), ChildMin))
      ensures showBookingDialog == old(showBookingDialog) && bookingSuccess == old(bookingSuccess)
      ensures pendingTimers == old(pendingTimers)
    {
      children := CounterDecrement(children, ChildMin);
    }

    /** The children counter's plus button; the total grows by one child rate. */
    method IncrementChildren()
      requires Valid()
      modifies this
      ensures Valid()
      ensures Form() == old(Form()).(children := old(children) + 1)
      ensures Total() == old(Total()) + TotalPrice(ticketType, 0, 1)
      ensures showBookingDialog == old(showBookingDialog) && bookingSuccess == old(bookingSuccess)
      ensures pendingTimers == old(pendingTimers)
    {
      IncrementAddsOneRate(ticketType, adults, children);
      children := children + 1;
    }

    /** `handleBookNow`, reachable only through the enabled button: open the dialog and
        schedule the confirmation timer. `bookingSuccess` is left as it was, so the
        spinner shows only if no earlier confirmation is still recorded. */
    method BookNow()
      requires Valid() && CanBookNow()
      modifies this
      ensures Valid()
      ensures Form() == old(Form())
      ensures showBookingDialog && bookingSuccess == old(bookingSuccess)
      ensures pendingTimers == old(pendingTimers) + 1
      ensures Dialog() == (if old(bookingSuccess) then Confirmed else Processing)
      ensures IsPricedTier(ticketType) && date.Some? && Total() >= TicketPrices[ticketType].adult
    {
      BookNowRule(ticketType, date, adults, children);
      TotalAtLeastAdultRate(ticketType, adults, children);
      showBookingDialog := true;
      pendingTimers := pendingTimers + 1;
    }

    /** A scheduled `setTimeout` callback runs: `setBookingSuccess(true)`. It always
        succeeds, and runs whether or not the dialog is still open. */
    method TimerFired()
      requires Valid() && pendingTimers > 0
      modifies this
      ensures Valid()
      ensures Form() == old(Form())
      ensures showBookingDialog == old(showBookingDialog) && bookingSuccess
      ensures pendingTimers == old(pendingTimers) - 1
      ensures old(Dialog()) != Hidden ==> Dialog() == Confirmed
    {
      bookingSuccess := true;
      pendingTimers := pendingTimers - 1;
    }

    /** The dialog's `onOpenChange(false)` or the Done button: `setShowBookingDialog(false)`. */
    method CloseDialog()
      requires Valid()
      modifies this
      ensures Valid()
      ensures Form() == old(Form())
      ensures !showBookingDialog && bookingSuccess == old(bookingSuccess)
      ensures pendingTimers == old(pendingTimers)
      ensures Dialog() == Hidden
    {
      showBookingDialog := false;
    }

    /** `resetForm` (Book Another): every one of the six state variables back to its
        initial value. Timers already scheduled are not cancelled. */
    method ResetForm()
      requires Valid()
      modifies this
      ensures Valid()
      ensures Form() == InitialDraft && !showBookingDialog && !bookingSuccess
      ensures pendingTimers == old(pendingTimers)
      ensures Dialog() == Hidden && !CanBookNow()
    {
      ticketType := "";
      date := None;
      adults := 1;
      children := 0;
      showBookingDialog := false;
      bookingSuccess := false;
    }
  }

  /** From the initial state, the dialog opens on the spinner and the timer turns it into the confirmation. */
  method FirstBooking() returns (afterBookNow: DialogView, afterTimer: DialogView)
    ensures afterBookNow == Processing && afterTimer == Confirmed
  {
    var f := new BookingForm();
    f.SelectTicketType("combo");
    f.SelectDate(Some(CalendarDay(0)));
    f.BookNow();
    afterBookNow := f.Dialog();
    f.TimerFired();
    afterTimer := f.Dialog();
  }

  /** Done keeps the form and the success flag, so booking again shows the confirmation at once, without the spinner. */
  method RebookAfterDone() returns (afterSecondBookNow: DialogView, pending: nat)
    ensures afterSecondBookNow == Confirmed && pending == 1
  {
    var f := new BookingForm();
    f.SelectTicketType("water-park");
    f.SelectDate(Some(CalendarDay(0)));
    f.BookNow();
    f.TimerFired();
    f.CloseDialog();
    f.BookNow();
    afterSecondBookNow := f.Dialog();
    pending := f.pendingTimers;
  }

  /** Book Another does not cancel a timer still pending from a rebooking, so after it
      fires the next booking after Book Another skips the spinner too. */
  method StaleTimerAfterBookAnother() returns (afterBookNow: DialogView)
    ensures afterBookNow == Confirmed
  {
    var f := new BookingForm();
    f.SelectTicketType("combo");
    f.SelectDate(Some(CalendarDay(0)));
    f.BookNow();
    f.TimerFired();
    f.CloseDialog();
    f.BookNow();
    f.ResetForm();
    f.SelectTicketType("combo");
    f.SelectDate(Some(CalendarDay(1)));
    f.TimerFired();
    f.BookNow();
    afterBookNow := f.Dialog();
  }

  /** Dismissing the dialog before the timer fires and booking again shows the spinner
      again, although it is not the first booking. */
  method RebookBeforeTimer() returns (afterSecondBookNow: DialogView, pending: nat)
    ensures afterSecondBookNow == Processing && pending == 2
  {
    var f := new BookingForm();
    f.SelectTicketType("agro-tour");
    f.SelectDate(Some(CalendarDay(0)));
    f.BookNow();
    f.CloseDialog();
    f.BookNow();
    afterSecondBookNow := f.Dialog();
    pending := f.pendingTimers;
  }

  /** After Book Another the form is back at its start and Book Now is disabled until a tier and a date are chosen again. */
  method BookAnother() returns (total: int, enabled: bool)
    ensures total == 0 && !enabled
  {
    var f := new BookingForm();
    f.SelectTicketType("agro-tour");
    f.IncrementChildren();
    f.SelectDate(Some(CalendarDay(0)));
    f.BookNow();
    f.TimerFired();
    f.ResetForm();
    total := f.Total();
    enabled := f.CanBookNow();
  }
}
