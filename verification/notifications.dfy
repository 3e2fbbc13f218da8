/**
 * The scheduled notification check (server/controllers/notificationController.js,
 * `checkAndSendNotifications`): today's `HH:MM` key in UTC, the users whose
 * stored time matches it, the message body, and the sent/error counters.
 *
 * The clock becomes the UTC hour and minute and the calendar date, the
 * Firestore query becomes the sequence of users it returned (those with
 * notifications enabled, in snapshot order), the corpus read by
 * `getDailyShlok` becomes a parameter, and Firebase Cloud Messaging becomes
 * the `send` oracle: `None` when the send resolves, `Some(message)` when it
 * rejects.
 */
module Notifications {
  import opened Wrappers
  import opened Text
  import opened Lists
  import opened ShlokServer

  /** `s.padStart(2, "0")`. */
  function PadStart2(s: string): (r: string)
    ensures |s| >= 2 ==> r == s
    ensures |s| < 2 ==> |r| == 2 && r[2 - |s|..] == s && r[..2 - |s|] == "00"[..2 - |s|]
  {
    if |s| >= 2 then s else if |s| == 1 then "0" + s else "00"
  }

  /** The current time key: UTC hour and minute, each padded to two digits, joined by `:`. */
  function CurrentTimeKey(hour: nat, minute: nat): string
  {
    PadStart2(NatToString(hour)) + ":" + PadStart2(NatToString(minute))
  }

  /** A user document as far as the check reads it; "" stands for a falsy field. */
  datatype User = User(id: string, notificationTime: Option<string>, fcmToken: Option<string>)

  predicate HasTime(u: User)
  {
    u.notificationTime.Some? && u.notificationTime.value != ""
  }

  predicate HasToken(u: User)
  {
    u.fcmToken.Some? && u.fcmToken.value != ""
  }

  /** A stored time split at `:` with both parts padded; `None` where the source throws (no `:`, so no minute). */
  function FormatUserTime(userTime: string): Option<string>
  {
    var parts := Split(userTime, ':');
    if |parts| < 2 then None else Some(PadStart2(parts[0]) + ":" + PadStart2(parts[1]))
  }

  lemma SplitPieces(s: string, sep: char)
    ensures |Split(s, sep)| >= 2 <==> sep in s
  {
    if sep !in s {
      SplitNone(s, sep);
    } else if |Split(s, sep)| == 1 {
      JoinSplit(s, sep);
    }
  }

  /** Formatting fails exactly when the stored time has no `:`. */
  lemma FormatNeedsColon(userTime: string)
    ensures FormatUserTime(userTime).None? <==> ':' !in userTime
  {
    SplitPieces(userTime, ':');
  }

  /** One user in the `forEach`: no time means skipped, a time without `:` throws, else the formatted time is compared. */
  function Selects(u: User, currentTime: string): Result<bool, string>
  {
    if !HasTime(u) then Ok(false)
    else match FormatUserTime(u.notificationTime.value)
      case None => Err(u.id)
      case Some(formatted) => Ok(formatted == currentTime)
  }

  predicate Throws(u: User, currentTime: string)
  {
    Selects(u, currentTime).Err?
  }

  predicate IsMatch(u: User, currentTime: string)
  {
    Selects(u, currentTime) == Ok(true)
  }

  /** `usersToNotify` after the `forEach`, or `None` when some user's time made it throw. */
  function UsersToNotify(users: seq<User>, currentTime: string): Option<seq<User>>
  {
    if users == [] then Some([])
    else
      var last := users[|users| - 1];
      match UsersToNotify(users[..|users| - 1], currentTime)
      case None => None
      case Some(found) =>
        match Selects(last, currentTime)
        case Err(_) => None
        case Ok(hit) => Some(found + if hit then [last] else [])
  }

  /** The check throws exactly when some user has a stored time without `:`; otherwise it keeps exactly the matching users, in snapshot order. */
  lemma {:induction false} UsersToNotifySpec(users: seq<User>, currentTime: string)
    ensures UsersToNotify(users, currentTime).None? <==> exists k :: 0 <= k < |users| && Throws(users[k], currentTime)
    ensures UsersToNotify(users, currentTime).Some? ==>
              UsersToNotify(users, currentTime).value == Filter(u => IsMatch(u, currentTime), users)
  {
    if users != [] {
      var init := users[..|users| - 1];
      UsersToNotifySpec(init, currentTime);
      assert forall k :: 0 <= k < |init| ==> init[k] == users[k];
      if exists k :: 0 <= k < |users| && Throws(users[k], currentTime) {
        var k :| 0 <= k < |users| && Throws(users[k], currentTime);
        if k < |init| {
          assert Throws(init[k], currentTime);
        }
      }
    }
  }

  /** The body of the `forEach` for one user: skip it, throw on a time without `:`, or compare. */
  method CheckUser(user: User, currentTime: string) returns (hit: Result<bool, string>)
    ensures hit == Selects(user, currentTime)
  {
    if !HasTime(user) {
      return Ok(false);
    }
    var parts := Split(user.notificationTime.value, ':');
    if |parts| < 2 {
      return Err(user.id);
    }
    var formattedUserTime := PadStart2(parts[0]) + ":" + PadStart2(parts[1]);
    return Ok(formattedUserTime == currentTime);
  }

  /** The source's `forEach`, pushing each matching user. */
  method SelectUsers(users: seq<User>, currentTime: string) returns (usersToNotify: Option<seq<User>>)
    ensures usersToNotify == UsersToNotify(users, currentTime)
  {
    var found: seq<User> := [];
    var i := 0;
    while i < |users|
      invariant 0 <= i <= |users|
      invariant UsersToNotify(users[..i], currentTime) == Some(found)
    {
      var u := users[i];
      assert users[..i + 1] == users[..i] + [u];
      UsersToNotifySnoc(users[..i], u, currentTime);
      var hit := CheckUser(u, currentTime);
      if hit.Err? {
        PrefixThrows(users, i + 1, currentTime);
        return None;
      }
      if hit.value {
        found := found + [u];
      } else {
        assert found + [] == found;
      }
      assert UsersToNotify(users[..i + 1], currentTime) == Some(found);
      i := i + 1;
    }
    assert users[..i] == users;
    return Some(found);
  }

  lemma UsersToNotifySnoc(xs: seq<User>, x: User, currentTime: string)
    ensures var found := UsersToNotify(xs, currentTime);
            var hit := Selects(x, currentTime);
            UsersToNotify(xs + [x], currentTime)
              == if found.None? || hit.Err? then None else Some(found.value + if hit.value then [x] else [])
  {
    assert (xs + [x])[..|xs|] == xs;
    if UsersToNotify(xs, currentTime).Some? {
      assert UsersToNotify(xs, currentTime).value + [] == UsersToNotify(xs, currentTime).value;
    }
  }

  /** Once a prefix throws, the whole snapshot throws. */
  lemma {:induction false} PrefixThrows(users: seq<User>, n: nat, currentTime: string)
    requires n <= |users| && UsersToNotify(users[..n], currentTime).None?
    ensures UsersToNotify(users, currentTime).None?
    decreases |users| - n
  {
    if n < |users| {
      assert users[..n + 1][..n] == users[..n];
      PrefixThrows(users, n + 1, currentTime);
    } else {
      assert users[..n] == users;
    }
  }

  /** A stored `8:5` matches the key `08:05`. */
  lemma PaddingExample()
    ensures FormatUserTime("8:5") == Some("08:05")
    ensures CurrentTimeKey(8, 5) == "08:05"
  {
    assert NatToString(8) == "8" && NatToString(5) == "5";
    SplitCons("8", "5", ':');
    SplitNone("5", ':');
    assert "8:5" == "8" + [':'] + "5";
    assert Split("8:5", ':') == ["8", "5"];
    assert PadStart2("8") == "08" && PadStart2("5") == "05";
    assert FormatUserTime("8:5") == Some("08" + ":" + "05");
    assert CurrentTimeKey(8, 5) == "08" + ":" + "05";
    assert "08" + ":" + "05" == "08:05";
  }

  /** The padded form of a number below 100 reads back as that number. */
  lemma PaddedValue(n: nat)
    requires n < 100
    ensures var p := PadStart2(NatToString(n));
            |p| == 2 && (forall k :: 0 <= k < 2 ==> IsDigit(p[k])) && DigitsValue(p) == n
  {
    var p := PadStart2(NatToString(n));
    DigitsValueOfNat(n);
    if n < 10 {
      assert p == ['0', DigitChar(n)];
      assert p[..1] == "0" && p[..1][..0] == [];
    }
  }

  /** A time stored as two numbers joined by `:` formats to the key of those numbers. */
  lemma FormatNumbers(h: nat, m: nat)
    ensures FormatUserTime(NatToString(h) + ":" + NatToString(m)) == Some(CurrentTimeKey(h, m))
  {
    var hs, ms := NatToString(h), NatToString(m);
    assert ':' !in hs && ':' !in ms by {
      assert forall k :: 0 <= k < |hs| ==> IsDigit(hs[k]);
      assert forall k :: 0 <= k < |ms| ==> IsDigit(ms[k]);
    }
    assert hs + ":" + ms == hs + [':'] + ms;
    SplitCons(hs, ms, ':');
    SplitNone(ms, ':');
  }

  /** Below 100, different hours or minutes give different keys. */
  lemma CurrentTimeKeyInjective(h: nat, m: nat, hour: nat, minute: nat)
    requires h < 100 && m < 100 && hour < 100 && minute < 100
    ensures CurrentTimeKey(h, m) == CurrentTimeKey(hour, minute) <==> h == hour && m == minute
  {
    PaddedValue(h);
    PaddedValue(m);
    PaddedValue(hour);
    PaddedValue(minute);
    var a, b := PadStart2(NatToString(h)), PadStart2(NatToString(m));
    var c, d := PadStart2(NatToString(hour)), PadStart2(NatToString(minute));
    if a + ":" + b == c + ":" + d {
      assert a == (a + ":" + b)[..2] && c == (c + ":" + d)[..2];
      assert b == (a + ":" + b)[3..] && d == (c + ":" + d)[3..];
    }
  }

  /** A time written as `H:M` (any padding) matches the current key exactly when hour and minute are equal. */
  lemma StoredTimeMatches(h: nat, m: nat, hour: nat, minute: nat)
    requires h < 100 && m < 100 && hour < 100 && minute < 100
    ensures FormatUserTime(NatToString(h) + ":" + NatToString(m)) == Some(CurrentTimeKey(hour, minute))
            <==> h == hour && m == minute
  {
    FormatNumbers(h, m);
    CurrentTimeKeyInjective(h, m, hour, minute);
  }

  // ---------------------------------------------------------------------
  // Sending
  // ---------------------------------------------------------------------

  const Title: string := "Your Daily Bhagavad Gita Shlok"
  const GenericBody: string := "Time for your daily wisdom from the Bhagavad Gita"

  /** The body: `chapter:verse - ` and the first 50 characters of the Sanskrit text and `...`, or a fixed sentence. */
  function NotificationBody(s: Shlok): (body: string)
    ensures s.sanskrit == "" ==> body == GenericBody
    ensures s.sanskrit != "" ==>
              var head := s.chapter + ":" + s.verse + " - ";
              var shown := if |s.sanskrit| < 50 then |s.sanskrit| else 50;
              |body| == |head| + shown + 3 && body[..|head|] == head
              && body[|head|..|head| + shown] == s.sanskrit[..shown] && body[|head| + shown..] == "..."
  {
    if s.sanskrit != "" then
      var shown := if |s.sanskrit| < 50 then |s.sanskrit| else 50;
      s.chapter + ":" + s.verse + " - " + s.sanskrit[..shown] + "..."
    else GenericBody
  }

  /** The FCM message built for one user. */
  datatype PushMessage = PushMessage(title: string, body: string, chapter: string, verse: string, clickAction: string, token: string)

  function MessageFor(s: Shlok, token: string): PushMessage
  {
    PushMessage(Title, NotificationBody(s),
                if s.chapter != "" then s.chapter else "1",
                if s.verse != "" then s.verse else "1",
                "OPEN_DAILY_SHLOK", token)
  }

  /** The outcome for one user: `None` when sent, else the error entry it adds. */
  function SendOne(u: User, s: Shlok, send: PushMessage -> Option<string>): Option<string>
  {
    if !HasToken(u) then Some("User " + u.id + " has no FCM token")
    else match send(MessageFor(s, u.fcmToken.value))
      case None => None
      case Some(reason) => Some("Failed to send to " + u.id + ": " + reason)
  }

  /** `totalNotificationsSent` after the loop over `users`. */
  function SentCount(users: seq<User>, s: Shlok, send: PushMessage -> Option<string>): nat
  {
    if users == [] then 0
    else SentCount(users[..|users| - 1], s, send) + if SendOne(users[|users| - 1], s, send).None? then 1 else 0
  }

  /** `errors` after the loop over `users`. */
  function SendErrors(users: seq<User>, s: Shlok, send: PushMessage -> Option<string>): seq<string>
  {
    FilterMap(u => SendOne(u, s, send), users)
  }

  /** Every user is counted once: either sent, or one error entry; only users with a token can be sent to. */
  lemma {:induction false} CountersAddUp(users: seq<User>, s: Shlok, send: PushMessage -> Option<string>)
    ensures SentCount(users, s, send) + |SendErrors(users, s, send)| == |users|
    ensures SentCount(users, s, send) <= |Filter(HasToken, users)|
  {
    if users != [] {
      var init := users[..|users| - 1];
      var last := users[|users| - 1];
      CountersAddUp(init, s, send);
      FilterMapSnoc(u => SendOne(u, s, send), init, last);
      assert users == init + [last];
    }
  }

  datatype NotifyError = StoredTimeWithoutColon | NoShlokAvailable

  /** The object the check resolves to; `None` fields are absent from it. */
  datatype Report = Report(message: Option<string>, totalProcessed: nat, totalSent: Option<nat>, errors: Option<seq<string>>)

  const NobodyDue: string := "No users scheduled for notifications at this time"

  /** The whole check, as a function of its inputs. */
  function CheckAndSend(users: seq<User>, utcHour: nat, utcMinute: nat,
                        corpus: seq<Shlok>, year: nat, monthIndex: nat, day: nat,
                        send: PushMessage -> Option<string>): (r: Result<Report, NotifyError>)
  {
    match UsersToNotify(users, CurrentTimeKey(utcHour, utcMinute))
    case None => Err(StoredTimeWithoutColon)
    case Some(toNotify) =>
      if toNotify == [] then Ok(Report(Some(NobodyDue), 0, None, None))
      else match GetDailyShlok(corpus, year, monthIndex, day)
        case None => Err(NoShlokAvailable)
        case Some(s) =>
          var errors := SendErrors(toNotify, s, send);
          Ok(Report(None, |toNotify|, Some(SentCount(toNotify, s, send)), if errors == [] then None else Some(errors)))
  }

  /** What the check promises: the counters add up, nobody due means no lookup and zero processed, an empty corpus throws. */
  lemma CheckAndSendSpec(users: seq<User>, utcHour: nat, utcMinute: nat,
                         corpus: seq<Shlok>, year: nat, monthIndex: nat, day: nat,
                         send: PushMessage -> Option<string>)
    ensures var currentTime := CurrentTimeKey(utcHour, utcMinute);
            var r := CheckAndSend(users, utcHour, utcMinute, corpus, year, monthIndex, day, send);
            (r == Err(StoredTimeWithoutColon) <==> exists k :: 0 <= k < |users| && Throws(users[k], currentTime))
            && (r.Ok? ==> r.value.totalProcessed == |Filter(u => IsMatch(u, currentTime), users)|)
            && (r.Ok? && r.value.totalSent.Some? ==>
                  r.value.totalSent.value + (if r.value.errors.Some? then |r.value.errors.value| else 0) == r.value.totalProcessed)
            && (r.Ok? && r.value.errors.Some? ==> r.value.errors.value != [])
            && (UsersToNotify(users, currentTime) == Some([]) ==> r == Ok(Report(Some(NobodyDue), 0, None, None)))
            && ((corpus == [] && UsersToNotify(users, currentTime).Some? && UsersToNotify(users, currentTime).value != [])
                ==> r == Err(NoShlokAvailable))
  {
    var currentTime := CurrentTimeKey(utcHour, utcMinute);
    UsersToNotifySpec(users, currentTime);
    var found := UsersToNotify(users, currentTime);
    if found.Some? && found.value != [] {
      var s := GetDailyShlok(corpus, year, monthIndex, day);
      if s.Some? {
        CountersAddUp(found.value, s.value, send);
      }
    }
  }

  /** One iteration of the `for ... of` loop: send if the user has a token; report the error entry otherwise. */
  method SendTo(user: User, s: Shlok, send: PushMessage -> Option<string>) returns (error: Option<string>)
    ensures error == SendOne(user, s, send)
  {
    if HasToken(user) {
      var outcome := send(MessageFor(s, user.fcmToken.value));
      if outcome.None? {
        return None;
      }
      return Some("Failed to send to " + user.id + ": " + outcome.value);
    }
    return Some("User " + user.id + " has no FCM token");
  }

  /** The `for ... of` loop: send to each user in turn, counting successes and collecting errors. */
  method SendAll(usersToNotify: seq<User>, s: Shlok, send: PushMessage -> Option<string>)
    returns (totalNotificationsSent: nat, errors: seq<string>)
    ensures totalNotificationsSent == SentCount(usersToNotify, s, send)
    ensures errors == SendErrors(usersToNotify, s, send)
  {
    totalNotificationsSent, errors := 0, [];
    var i := 0;
    while i < |usersToNotify|
      invariant 0 <= i <= |usersToNotify|
      invariant totalNotificationsSent == SentCount(usersToNotify[..i], s, send)
      invariant errors == SendErrors(usersToNotify[..i], s, send)
    {
      var user := usersToNotify[i];
      assert usersToNotify[..i + 1] == usersToNotify[..i] + [user];
      FilterMapSnoc(u => SendOne(u, s, send), usersToNotify[..i], user);
      var error := SendTo(user, s, send);
      if error.None? {
        totalNotificationsSent := totalNotificationsSent + 1;
      } else {
        errors := errors + [error.value];
      }
      i := i + 1;
    }
    assert usersToNotify[..i] == usersToNotify;
  }

  /** The controller: select the users, look up today's verse, then send one by one. */
  method CheckAndSendNotifications(users: seq<User>, utcHour: nat, utcMinute: nat,
                                   corpus: seq<Shlok>, year: nat, monthIndex: nat, day: nat,
                                   send: PushMessage -> Option<string>)
    returns (r: Result<Report, NotifyError>)
    ensures r == CheckAndSend(users, utcHour, utcMinute, corpus, year, monthIndex, day, send)
  {
    var currentHour := PadStart2(NatToString(utcHour));
    var currentMinute := PadStart2(NatToString(utcMinute));
    var currentTime := currentHour + ":" + currentMinute;
    var selected := SelectUsers(users, currentTime);
    if selected.None? {
      return Err(StoredTimeWithoutColon);
    }
    var usersToNotify := selected.value;
    if |usersToNotify| == 0 {
      return Ok(Report(Some(NobodyDue), 0, None, None));
    }
    var todayShlok := GetDailyShlok(corpus, year, monthIndex, day);
    if todayShlok.None? {
      return Err(NoShlokAvailable);
    }
    var totalNotificationsSent, errors := SendAll(usersToNotify, todayShlok.value, send);
    return Ok(Report(None, |usersToNotify|, Some(totalNotificationsSent), if |errors| > 0 then Some(errors) else None));
  }
}
