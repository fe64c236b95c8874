/**
 * The portfolio component's state and the event handlers that update it.
 * Each field is one piece of the component's state; each method is one
 * callback firing (a scroll event, the debounced section check, an observer
 * batch, a click, a timer), with the browser's readings passed in.
 */
module Page {
  import opened Geometry
  import opened Sections
  import opened Visibility

  datatype FormStatus = Idle | Sending | Success | Error
  datatype Theme = Dark | Light

  /** The theme switch. */
  function Flip(t: Theme): (u: Theme)
    ensures u != t
  {
    if t == Dark then Light else Dark
  }

  /** Toggling twice restores the original theme. */
  lemma FlipTwice(t: Theme)
    ensures Flip(Flip(t)) == t
  {
  }

  /** Offsets whose distance from the viewport top stays within this end the
      monitor loop of `scrollToSection`. */
  const ArrivalTolerance: int := 10

  /** The monitor keeps running while the target's top is more than the
      tolerance away from the viewport top, on either side. */
  function KeepMonitoring(targetTop: int): (keep: bool)
    ensures keep <==> targetTop < -ArrivalTolerance || ArrivalTolerance < targetTop
  {
    var distance := if targetTop < 0 then -targetTop else targetTop;
    distance > ArrivalTolerance
  }

  class PageState {
    var scrollY: int
    var scrollProgress: real
    var activeSection: Section
    var visibleElements: set<string>
    var menuOpen: bool
    var name: string
    var email: string
    var message: string
    var formStatus: FormStatus
    var theme: Theme

    /** The progress bar stays in [0, 100] and no handler ever reports a
        failed submission. */
    ghost predicate Valid()
      reads this
    {
      0.0 <= scrollProgress <= 100.0 && formStatus != Error
    }

    /** The component's initial state. */
    constructor ()
      ensures Valid()
      ensures scrollY == 0 && scrollProgress == 0.0 && activeSection == Hero
      ensures visibleElements == {} && !menuOpen
      ensures name == "" && email == "" && message == ""
      ensures formStatus == Idle && theme == Dark
    {
      scrollY := 0;
      scrollProgress := 0.0;
      activeSection := Hero;
      visibleElements := {};
      menuOpen := false;
      name, email, message := "", "", "";
      formStatus := Idle;
      theme := Dark;
    }

    /** The immediate part of the scroll handler: store the offset and the
        progress. Returns the offset that the debounced section check uses. */
    method OnScroll(pageYOffset: int, rootScrollTop: int, bodyScrollTop: int,
                    heights: HeightMeasures, windowHeight: int)
      returns (capturedScrollY: int)
      requires Valid()
      modifies this
      ensures Valid()
      ensures capturedScrollY == ReadScrollY(pageYOffset, rootScrollTop, bodyScrollTop)
      ensures scrollY == capturedScrollY
      ensures scrollProgress == Progress(capturedScrollY, DocumentHeight(heights), windowHeight)
      ensures activeSection == old(activeSection) && visibleElements == old(visibleElements)
      ensures menuOpen == old(menuOpen) && theme == old(theme) && formStatus == old(formStatus)
      ensures name == old(name) && email == old(email) && message == old(message)
    {
      capturedScrollY := ReadScrollY(pageYOffset, rootScrollTop, bodyScrollTop);
      scrollY := capturedScrollY;
      scrollProgress := Progress(capturedScrollY, DocumentHeight(heights), windowHeight);
    }

    /** The debounced section check, run with the offset captured by the
        scroll event that scheduled it. */
    method OnSectionCheck(layout: Layout, capturedScrollY: int, windowHeight: int, heights: HeightMeasures)
      requires Valid()
      modifies this
      ensures Valid()
      ensures activeSection == ActiveSection(layout, capturedScrollY, windowHeight, BottomCheckHeight(heights))
      ensures scrollY == old(scrollY) && scrollProgress == old(scrollProgress)
      ensures visibleElements == old(visibleElements)
      ensures menuOpen == old(menuOpen) && theme == old(theme) && formStatus == old(formStatus)
      ensures name == old(name) && email == old(email) && message == old(message)
    {
      activeSection := SelectActiveSection(layout, capturedScrollY, windowHeight, BottomCheckHeight(heights));
    }

    /** One batch of the intersection observer: intersecting entries are
        revealed, and nothing already revealed is lost. */
    method OnIntersect(entries: seq<Entry>)
      requires Valid()
      modifies this
      ensures Valid()
      ensures old(visibleElements) <= visibleElements
      ensures visibleElements == Reveal(old(visibleElements), entries)
      ensures scrollY == old(scrollY) && scrollProgress == old(scrollProgress)
      ensures activeSection == old(activeSection)
      ensures menuOpen == old(menuOpen) && theme == old(theme) && formStatus == old(formStatus)
      ensures name == old(name) && email == old(email) && message == old(message)
    {
      visibleElements := CollectRevealed(visibleElements, entries);
    }

    /** A navigation click: highlight the target at once when its element
        exists, and close the mobile menu in every case. */
    method ScrollToSection(target: Section, targetExists: bool)
      requires Valid()
      modifies this
      ensures Valid()
      ensures activeSection == (if targetExists then target else old(activeSection))
      ensures !menuOpen
      ensures scrollY == old(scrollY) && scrollProgress == old(scrollProgress)
      ensures visibleElements == old(visibleElements)
      ensures theme == old(theme) && formStatus == old(formStatus)
      ensures name == old(name) && email == old(email) && message == old(message)
    {
      if targetExists {
        activeSection := target;
      }
      menuOpen := false;
    }

    /** One frame of the monitor started by `ScrollToSection`: refresh the
        offset and the progress, and report whether another frame is needed. */
    method MonitorFrame(pageYOffset: int, rootScrollTop: int, bodyScrollTop: int,
                        heights: HeightMeasures, windowHeight: int, targetTop: int)
      returns (keep: bool)
      requires Valid()
      modifies this
      ensures Valid()
      ensures keep == KeepMonitoring(targetTop)
      ensures scrollY == ReadScrollY(pageYOffset, rootScrollTop, bodyScrollTop)
      ensures scrollProgress == Progress(scrollY, DocumentHeight(heights), windowHeight)
      ensures activeSection == old(activeSection) && visibleElements == old(visibleElements)
      ensures menuOpen == old(menuOpen) && theme == old(theme) && formStatus == old(formStatus)
      ensures name == old(name) && email == old(email) && message == old(message)
    {
      var currentScrollY := ReadScrollY(pageYOffset, rootScrollTop, bodyScrollTop);
      scrollY := currentScrollY;
      scrollProgress := Progress(currentScrollY, DocumentHeight(heights), windowHeight);
      keep := KeepMonitoring(targetTop);
    }

    /** The mobile menu button. */
    method ToggleMenu()
      requires Valid()
      modifies this`menuOpen
      ensures Valid()
      ensures menuOpen == !old(menuOpen)
    {
      menuOpen := !menuOpen;
    }

    /** Typing into one of the three contact fields replaces that field only. */
    method EditName(value: string)
      requires Valid()
      modifies this`name
      ensures Valid() && name == value
    {
      name := value;
    }

    method EditEmail(value: string)
      requires Valid()
      modifies this`email
      ensures Valid() && email == value
    {
      email := value;
    }

    method EditMessage(value: string)
      requires Valid()
      modifies this`message
      ensures Valid() && message == value
    {
      message := value;
    }

    /** Submitting the form: the status becomes `Sending`; the fields are kept. */
    method SubmitContact()
      requires Valid()
      modifies this`formStatus
      ensures Valid()
      ensures formStatus == Sending
    {
      formStatus := Sending;
    }

    /** The simulated send completes: success, and all three fields cleared. */
    method SendCompleted()
      requires Valid()
      modifies this`formStatus, this`name, this`email, this`message
      ensures Valid()
      ensures formStatus == Success
      ensures name == "" && email == "" && message == ""
    {
      formStatus := Success;
      name, email, message := "", "", "";
    }

    /** The confirmation timer expires: back to `Idle`. */
    method ConfirmationExpired()
      requires Valid()
      modifies this`formStatus
      ensures Valid()
      ensures formStatus == Idle
    {
      formStatus := Idle;
    }

    /** The theme switch. */
    method ToggleTheme()
      requires Valid()
      modifies this`theme
      ensures Valid()
      ensures theme == Flip(old(theme))
    {
      theme := Flip(theme);
    }
  }

  /** The submission round trip of the contact form: from any valid state,
      submit, completion and expiry pass through `Sending` and `Success` and
      end `Idle` with every field empty. */
  method ContactRoundTrip(page: PageState)
    requires page.Valid()
    modifies page
    ensures page.Valid()
    ensures page.formStatus == Idle
    ensures page.name == "" && page.email == "" && page.message == ""
    ensures page.theme == old(page.theme) && page.visibleElements == old(page.visibleElements)
    ensures page.scrollY == old(page.scrollY) && page.scrollProgress == old(page.scrollProgress)
    ensures page.activeSection == old(page.activeSection) && page.menuOpen == old(page.menuOpen)
  {
    page.SubmitContact();
    assert page.formStatus == Sending;
    page.SendCompleted();
    assert page.formStatus == Success;
    page.ConfirmationExpired();
  }
}
