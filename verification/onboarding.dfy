/**
 * The onboarding screen (src/components/onboarding/Onboarding.js): three
 * slides, a `currentSlide` index moved by Next, Back and the progress dots,
 * and the preference write made on completion.
 *
 * The signed-in user, the token returned by the notification-permission
 * request and the ISO time stamp are parameters.  The Firestore write is
 * recorded as an entry of `writes`, the `tamohar_hasVisited` flag as
 * `hasVisited`, and the last navigation as `route`.
 */
module OnboardingFlow {
  import opened Wrappers

  const SlideCount: nat := 3
  const LastSlide: nat := SlideCount - 1
  const DefaultTime: string := "08:00"

  /** The fields a completion writes under `preferences.`. */
  datatype PrefsUpdate =
    | Full(notificationTime: string, notificationsEnabled: bool, fcmToken: Option<string>, lastUpdated: string)
    | CompletedOnly

  /** One `updateDoc` call: the user id and the update. */
  datatype Write = Write(uid: string, update: PrefsUpdate)

  /** `Boolean(token)`: a token is present and non-empty. */
  predicate Truthy(token: Option<string>)
  {
    token.Some? && token.value != ""
  }

  /** The update for a signed-in user completing from `slide`. */
  function PrefsFor(slide: nat, notificationTime: string, token: Option<string>, now: string): (u: PrefsUpdate)
    ensures slide == LastSlide ==> u.Full? && u.notificationTime == notificationTime && u.lastUpdated == now
    ensures slide == LastSlide ==> (u.notificationsEnabled <==> Truthy(token))
    ensures slide == LastSlide ==> (u.fcmToken.Some? <==> u.notificationsEnabled) && (u.fcmToken.Some? ==> u.fcmToken == token)
    ensures slide != LastSlide ==> u == CompletedOnly
  {
    if slide == LastSlide then Full(notificationTime, Truthy(token), if Truthy(token) then token else None, now)
    else CompletedOnly
  }

  /** The writes `completeOnboarding` makes: none for a guest, one for a signed-in user. */
  function CompletionWrites(user: Option<string>, slide: nat, notificationTime: string, token: Option<string>, now: string): (ws: seq<Write>)
    ensures user.None? <==> ws == []
    ensures user.Some? ==> |ws| == 1 && ws[0].uid == user.value
  {
    if user.None? then [] else [Write(user.value, PrefsFor(slide, notificationTime, token, now))]
  }

  /** Where Next leads: the following slide, or `None` on the last slide, where it completes instead. */
  function NextTarget(slide: nat): (r: Option<nat>)
    requires slide < SlideCount
    ensures r.None? <==> slide == LastSlide
    ensures r.Some? ==> r.value == slide + 1 && r.value < SlideCount
  {
    if slide < SlideCount - 1 then Some(slide + 1) else None
  }

  /** Where Back leads: one slide back, or nowhere from the first. */
  function PrevTarget(slide: nat): (r: nat)
    requires slide < SlideCount
    ensures r < SlideCount
    ensures slide > 0 ==> r == slide - 1
    ensures slide == 0 ==> r == 0
  {
    if slide > 0 then slide - 1 else slide
  }

  /** Back undoes Next below the last slide, and Next undoes Back above the first. */
  lemma NextPrevInverse(slide: nat)
    requires slide < SlideCount
    ensures slide < LastSlide ==> PrevTarget(NextTarget(slide).value) == slide
    ensures slide > 0 ==> NextTarget(PrevTarget(slide)) == Some(slide)
  {
  }

  /** A click on the screen's slide controls. */
  datatype Click = Next | Back | Dot(index: nat)

  /** The slide after a run of clicks, or `None` once Next completes on the last slide. */
  function Run(slide: nat, clicks: seq<Click>): Option<nat>
    requires slide < SlideCount
    requires forall k :: 0 <= k < |clicks| && clicks[k].Dot? ==> clicks[k].index < SlideCount
    decreases |clicks|
  {
    if clicks == [] then Some(slide)
    else
      match clicks[0]
      case Next => if slide == LastSlide then None else Run(slide + 1, clicks[1..])
      case Back => Run(PrevTarget(slide), clicks[1..])
      case Dot(i) => Run(i, clicks[1..])
  }

  /** Whatever the clicks, the index stays a valid slide; and a run ends early only by completing. */
  lemma {:induction false} RunStaysInRange(slide: nat, clicks: seq<Click>)
    requires slide < SlideCount
    requires forall k :: 0 <= k < |clicks| && clicks[k].Dot? ==> clicks[k].index < SlideCount
    ensures Run(slide, clicks).Some? ==> Run(slide, clicks).value < SlideCount
    ensures Run(slide, clicks).None? ==> Next in clicks
    decreases |clicks|
  {
    if clicks != [] {
      assert forall k :: 0 <= k < |clicks[1..]| ==> clicks[1..][k] == clicks[k + 1];
      match clicks[0]
      case Next =>
        if slide != LastSlide {
          RunStaysInRange(slide + 1, clicks[1..]);
        }
      case Back =>
        RunStaysInRange(PrevTarget(slide), clicks[1..]);
        if Run(slide, clicks).None? {
          assert clicks[0] == Back && Next in clicks[1..];
        }
      case Dot(i) =>
        RunStaysInRange(i, clicks[1..]);
        if Run(slide, clicks).None? {
          assert Next in clicks[1..];
        }
    }
  }

  /** Which controls the screen renders. */
  datatype Controls = Controls(back: bool, next: bool, getStarted: bool, skip: bool, timePicker: bool, authButtons: bool)

  function VisibleControls(slide: nat, signedIn: bool): (c: Controls)
    requires slide < SlideCount
    ensures c.back <==> slide > 0
    ensures c.next != c.getStarted && (c.getStarted <==> slide == LastSlide)
    ensures c.skip <==> c.next
    ensures !(c.timePicker && c.authButtons)
    ensures slide == LastSlide ==> (c.timePicker <==> signedIn) && (c.authButtons <==> !signedIn)
    ensures slide != LastSlide ==> !c.timePicker && !c.authButtons
  {
    Controls(slide > 0, slide < SlideCount - 1, !(slide < SlideCount - 1), slide < SlideCount - 1,
             slide == 2 && signedIn, slide == 2 && !signedIn)
  }

  class Onboarding {
    var currentSlide: nat
    var notificationTime: string
    const user: Option<string>
    var hasVisited: bool
    var route: Option<string>
    var writes: seq<Write>

    predicate Valid()
      reads this
    {
      currentSlide < SlideCount
    }

    /** The screen as first rendered: slide 0, time `08:00`, nothing stored, nowhere navigated. */
    constructor(user: Option<string>)
      ensures Valid()
      ensures currentSlide == 0 && notificationTime == DefaultTime
      ensures this.user == user && !hasVisited && route.None? && writes == []
    {
      currentSlide := 0;
      notificationTime := DefaultTime;
      this.user := user;
      hasVisited := false;
      route := None;
      writes := [];
    }

    /** `completeOnboarding`: set the flag, write the preferences of a signed-in user, go home. */
    method CompleteOnboarding(token: Option<string>, now: string)
      requires Valid()
      modifies this
      ensures Valid()
      ensures hasVisited && route == Some("/")
      ensures writes == old(writes) + CompletionWrites(user, currentSlide, notificationTime, token, now)
      ensures currentSlide == old(currentSlide) && notificationTime == old(notificationTime)
    {
      hasVisited := true;
      if user.Some? {
        if currentSlide == SlideCount - 1 {
          var enabled := token.Some? && token.value != "";
          writes := writes + [Write(user.value, Full(notificationTime, enabled, if enabled then token else None, now))];
        } else {
          writes := writes + [Write(user.value, CompletedOnly)];
        }
      }
      route := Some("/");
    }

    /** `nextSlide`: move forward, or complete on the last slide. */
    method NextSlide(token: Option<string>, now: string)
      requires Valid()
      modifies this
      ensures Valid()
      ensures NextTarget(old(currentSlide)).Some? ==>
                currentSlide == NextTarget(old(currentSlide)).value
                && hasVisited == old(hasVisited) && route == old(route) && writes == old(writes)
      ensures NextTarget(old(currentSlide)).None? ==>
                currentSlide == old(currentSlide) && hasVisited && route == Some("/")
                && writes == old(writes) + CompletionWrites(user, LastSlide, notificationTime, token, now)
      ensures notificationTime == old(notificationTime)
    {
      if currentSlide < SlideCount - 1 {
        currentSlide := currentSlide + 1;
      } else {
        CompleteOnboarding(token, now);
      }
    }

    /** `prevSlide`: move back unless on the first slide. */
    method PrevSlide()
      requires Valid()
      modifies this
      ensures Valid()
      ensures currentSlide == PrevTarget(old(currentSlide))
      ensures notificationTime == old(notificationTime) && hasVisited == old(hasVisited)
      ensures route == old(route) && writes == old(writes)
    {
      if currentSlide > 0 {
        currentSlide := currentSlide - 1;
      }
    }

    /** A click on progress dot `index`; one dot is rendered per slide. */
    method SelectDot(index: nat)
      requires Valid() && index < SlideCount
      modifies this
      ensures Valid()
      ensures currentSlide == index
      ensures notificationTime == old(notificationTime) && hasVisited == old(hasVisited)
      ensures route == old(route) && writes == old(writes)
    {
      currentSlide := index;
    }

    /** The time picker's `onChange`. */
    method SetNotificationTime(time: string)
      requires Valid()
      modifies this
      ensures Valid()
      ensures notificationTime == time
      ensures currentSlide == old(currentSlide) && hasVisited == old(hasVisited)
      ensures route == old(route) && writes == old(writes)
    {
      notificationTime := time;
    }

    /** `skipOnboarding`: set the flag and go home, writing nothing. */
    method SkipOnboarding()
      requires Valid()
      modifies this
      ensures Valid()
      ensures hasVisited && route == Some("/")
      ensures currentSlide == old(currentSlide) && notificationTime == old(notificationTime) && writes == old(writes)
    {
      hasVisited := true;
      route := Some("/");
    }

    /** `goToSignUp`: set the flag and open the sign-up form. */
    method GoToSignUp()
      requires Valid()
      modifies this
      ensures Valid()
      ensures hasVisited && route == Some("/signup")
      ensures currentSlide == old(currentSlide) && notificationTime == old(notificationTime) && writes == old(writes)
    {
      hasVisited := true;
      route := Some("/signup");
    }

    /** `continueAsGuest`: set the flag and go home. */
    method ContinueAsGuest()
      requires Valid()
      modifies this
      ensures Valid()
      ensures hasVisited && route == Some("/")
      ensures currentSlide == old(currentSlide) && notificationTime == old(notificationTime) && writes == old(writes)
    {
      hasVisited := true;
      route := Some("/");
    }
  }
}
