/** `TelegramService`: the command handlers of the bot and the periodic broadcast run.

    The bot's `sendMessage` is modelled as appending to `outbox`; a failing repository call is
    the `storeFault` (or `queryFault`) parameter; the weather provider is an oracle `fetch`
    that gives the provider's response to the n-th request of a run, made for a given city. */
module TelegramService {
  import opened Wrappers
  import opened UserEntity
  import opened UserService

  /** The parts of an incoming Telegram message the handlers read: `msg.chat.id`,
      `msg.from.id` and the text the command pattern is matched against. */
  datatype Message = Message(chatId: int, fromId: int, text: string)

  /** One `sendMessage(chatId, text)` call. */
  datatype Send = Send(chatId: int, text: string)

  /** One entry of the provider's `data` array: the weather description and the temperature,
      the latter kept as the text the template renders it to. */
  datatype Observation = Observation(description: string, temp: string)

  /** What the weather request yields: a failure of any kind (network, HTTP status, URI
      encoding), or a response body whose `data` array may be empty. */
  datatype FetchResult = Failed | Received(data: seq<Observation>)

  const Welcome: string := "Welcome to WeatherFatherBot"
  const NowSubscribed: string := "You are now subscribed to daily weather updates."
  const AlreadySubscribed: string := "You are already subscribed to daily weather updates."
  const SubscribeFailed: string := "Failed to subscribe. Please try again later."
  const NowUnsubscribed: string := "You are now unsubscribed from daily weather updates."
  const AlreadyUnsubscribed: string := "You are already unsubscribed from daily weather updates."
  const UnsubscribeFailed: string := "Failed to unsubscribe. Please try again later."
  const SetCityFailed: string := "Failed to set your preferred city. Please try again later."
  // Written as two literals: the verifier reads the first character of the shorter one,
  // which `FetchWeatherDataForCity` uses to tell the fallback from a report.
  const WeatherFallback: string := "Failed to fetch weather data. " + "Please try again later."

  /** The reply of `/subscribe` chosen from the row the store returned. */
  function SubscribeReply(user: Option<User>): string
  {
    if user.Some? then NowSubscribed else AlreadySubscribed
  }

  /** The reply of `/unsubscribe` chosen from the row the store returned. */
  function UnsubscribeReply(user: Option<User>): string
  {
    if user.Some? then NowUnsubscribed else AlreadyUnsubscribed
  }

  /** The confirmation `/setcity` sends. */
  function CityConfirmation(city: string): string
  {
    "Your preferred city has been set to " + city + "."
  }

  /** The report built from the first entry of a successful response. */
  function WeatherReport(city: string, obs: Observation): string
  {
    "The weather in " + city + " is " + obs.description + " with a temperature of "
      + obs.temp + "\U{B0}C."
  }

  /** The text `fetchWeatherDataForCity` resolves to: the report built from `data[0]`, or the
      fixed fallback when the request failed or `data[0]` does not exist (`data[0]` is then
      `undefined`, reading its `weather` field throws, and the exception is caught). The fallback is never mistaken for a report. */
  function FetchWeatherDataForCity(city: string, response: FetchResult): (text: string)
    ensures text == WeatherFallback <==> response.Failed? || response.data == []
    ensures response.Received? && response.data != [] ==>
      text == WeatherReport(city, response.data[0])
  {
    match response
    case Failed => WeatherFallback
    case Received(data) =>
      if data == [] then WeatherFallback
      else
        var report := WeatherReport(city, data[0]);
        assert report[0] == 'T' && WeatherFallback[0] == 'F';
        report
  }

  // ---------------------------------------------------------------------------------------
  // The `/setcity (.+)` pattern. The regular expression is not anchored, so a match may start
  // anywhere in the text; `.` matches every character except the line terminators; `(.+)` is
  // greedy, so the capture runs to the end of the line.

  const SetCityCommand: string := "/setcity "

  predicate IsLineTerminator(c: char)
  {
    c == '\n' || c == '\r' || c == '\U{2028}' || c == '\U{2029}'
  }

  /** The pattern matches at position `i` of `text`: the command and its space, then at least
      one character that `.` accepts. */
  predicate MatchesAt(text: string, i: nat)
  {
    && i + |SetCityCommand| < |text|
    && text[i..i + |SetCityCommand|] == SetCityCommand
    && !IsLineTerminator(text[i + |SetCityCommand|])
  }

  /** What the greedy `.+` consumes: the longest prefix of `s` without a line terminator. */
  function LineRun(s: string): (r: string)
    ensures |r| <= |s| && r == s[..|r|]
    ensures forall k :: 0 <= k < |r| ==> !IsLineTerminator(r[k])
    ensures |r| == |s| || IsLineTerminator(s[|r|])
  {
    if s == [] || IsLineTerminator(s[0]) then [] else [s[0]] + LineRun(s[1..])
  }

  /** The leftmost position at or after `from` where the pattern matches. */
  function FirstMatch(text: string, from: nat): (r: Option<nat>)
    ensures r.Some? ==>
      && from <= r.value
      && MatchesAt(text, r.value)
      && forall j: nat :: from <= j < r.value ==> !MatchesAt(text, j)
    ensures r.None? ==> forall j: nat :: from <= j ==> !MatchesAt(text, j)
    decreases |text| - from
  {
    if from >= |text| then None
    else if MatchesAt(text, from) then Some(from)
    else FirstMatch(text, from + 1)
  }

  /** `match[1]` of `/\/setcity (.+)/` on `text`, or `None` when the pattern does not match
      (then the handler is not invoked at all). The capture is non-empty, holds no line
      terminator, follows the leftmost `/setcity ` that has an argument, and reaches the end
      of that line. */
  function SetCityArgument(text: string): (city: Option<string>)
    ensures city.None? <==> forall i: nat :: !MatchesAt(text, i)
    ensures city.Some? ==>
      && |city.value| > 0
      && (forall k :: 0 <= k < |city.value| ==> !IsLineTerminator(city.value[k]))
      && exists i: nat ::
        && MatchesAt(text, i)
        && (forall j: nat :: j < i ==> !MatchesAt(text, j))
        && i + |SetCityCommand| + |city.value| <= |text|
        && text[i..i + |SetCityCommand| + |city.value|] == SetCityCommand + city.value
        && (i + |SetCityCommand| + |city.value| == |text|
            || IsLineTerminator(text[i + |SetCityCommand| + |city.value|]))
  {
    match FirstMatch(text, 0)
    case None => None
    case Some(i) =>
      var rest := text[i + |SetCityCommand|..];
      var arg := LineRun(rest);
      assert rest[0] == text[i + |SetCityCommand|];
      assert text[i..i + |SetCityCommand| + |arg|] == text[i..i + |SetCityCommand|] + arg;
      Some(arg)
  }

  /** A line that holds nothing but a text without line terminators is all captured. */
  lemma {:induction false} LineRunWhole(s: string)
    requires forall k :: 0 <= k < |s| ==> !IsLineTerminator(s[k])
    ensures LineRun(s) == s
    decreases |s|
  {
    if s != [] {
      LineRunWhole(s[1..]);
    }
  }

  /** `/setcity <city>` hands exactly `<city>` to the handler when the city is one line. */
  lemma SetCityRoundTrip(city: string)
    requires |city| > 0
    requires forall k :: 0 <= k < |city| ==> !IsLineTerminator(city[k])
    ensures SetCityArgument(SetCityCommand + city) == Some(city)
  {
    var text := SetCityCommand + city;
    assert text[..|SetCityCommand|] == SetCityCommand;
    assert text[|SetCityCommand|] == city[0];
    assert MatchesAt(text, 0);
    assert text[|SetCityCommand|..] == city;
    LineRunWhole(city);
  }

  /** A bare `/setcity`, or one followed only by the space, does not fire the handler. */
  lemma BareSetCityIgnored()
    ensures SetCityArgument("/setcity") == None
    ensures SetCityArgument("/setcity ") == None
  {
  }

  // ---------------------------------------------------------------------------------------
  // The broadcast run.

  /** The message one eligible user receives when the weather request for that user is the
      n-th of the run: the weather text for the user's city, addressed to the user's
      telegramId. */
  function WeatherUpdateFor(user: User, n: nat, fetch: (nat, string) -> FetchResult): Send
    requires Eligible(user)
  {
    var city := user.preferredCity.value;
    Send(user.telegramId, FetchWeatherDataForCity(city, fetch(n, city)))
  }

  /** The sends of one run over `users`: one per user, none skipped. */
  function BroadcastSends(users: seq<User>, fetch: (nat, string) -> FetchResult): (sends: seq<Send>)
    requires forall i :: 0 <= i < |users| ==> Eligible(users[i])
    ensures |sends| == |users|
  {
    if users == [] then []
    else
      var last := |users| - 1;
      BroadcastSends(users[..last], fetch) + [WeatherUpdateFor(users[last], last, fetch)]
  }

  /** The i-th send of a run is the message for the i-th user, in the same order. */
  lemma {:induction false} BroadcastSendsAt(users: seq<User>, fetch: (nat, string) -> FetchResult)
    requires forall i :: 0 <= i < |users| ==> Eligible(users[i])
    ensures forall i :: 0 <= i < |users| ==> BroadcastSends(users, fetch)[i] == WeatherUpdateFor(users[i], i, fetch)
    decreases |users|
  {
    if users != [] {
      var last := |users| - 1;
      var front := users[..last];
      BroadcastSendsAt(front, fetch);
      var sends := BroadcastSends(users, fetch);
      assert sends == BroadcastSends(front, fetch) + [WeatherUpdateFor(users[last], last, fetch)];
      forall i | 0 <= i < |users| ensures sends[i] == WeatherUpdateFor(users[i], i, fetch) {
        if i < last {
          assert front[i] == users[i];
          assert sends[i] == BroadcastSends(front, fetch)[i];
        }
      }
    }
  }

  /** A run over one more user appends that user's message to the run's sends. */
  lemma BroadcastStep(users: seq<User>, i: nat, fetch: (nat, string) -> FetchResult)
    requires i < |users|
    requires forall k :: 0 <= k < |users| ==> Eligible(users[k])
    ensures BroadcastSends(users[..i + 1], fetch) == BroadcastSends(users[..i], fetch) + [WeatherUpdateFor(users[i], i, fetch)]
  {
    assert users[..i + 1][..i] == users[..i];
  }

  /** The telegramIds a list of sends is addressed to. */
  function Recipients(sends: seq<Send>): set<int>
  {
    set i | 0 <= i < |sends| :: sends[i].chatId
  }

  /** The rows of the eligibility query over a well-formed table are the table's own rows,
      each eligible user's row appears, and no telegramId appears twice. */
  lemma QueryRowsAreTableRows(users: Table, order: seq<int>, nextId: nat, rows: seq<User>)
    requires WellFormed(users, order, nextId)
    requires rows == EligibleRows(users, order)
    ensures forall i :: 0 <= i < |rows| ==> rows[i].telegramId in users && users[rows[i].telegramId] == rows[i]
    ensures forall k :: k in users && Eligible(users[k]) ==> exists i :: 0 <= i < |rows| && rows[i] == users[k]
    ensures forall i, j :: 0 <= i < j < |rows| ==> rows[i].telegramId != rows[j].telegramId
  {
    EligibleRowsSorted(users, order);
    forall i | 0 <= i < |rows| ensures rows[i].telegramId in users && users[rows[i].telegramId] == rows[i] {
      assert rows[i] in rows;
      var m :| 0 <= m < |order| && users[order[m]] == rows[i];
      assert order[m] in users && users[order[m]].telegramId == order[m];
    }
    forall k | k in users && Eligible(users[k]) ensures exists i :: 0 <= i < |rows| && rows[i] == users[k] {
      var m :| 0 <= m < |order| && order[m] == k;
      assert users[order[m]] in rows;
    }
    forall i, j | 0 <= i < j < |rows| ensures rows[i].telegramId != rows[j].telegramId {
      assert rows[i].id < rows[j].id;
    }
  }

  /** One run over a well-formed table messages exactly the eligible users, each of them once,
      with the weather text for that user's own city (the fallback text when the fetch for
      that city failed). */
  lemma RunReachesExactlyEligible(users: Table, order: seq<int>, nextId: nat, fetch: (nat, string) -> FetchResult)
    requires WellFormed(users, order, nextId)
    ensures forall k ::
      k in Recipients(BroadcastSends(EligibleRows(users, order), fetch)) <==> k in users && Eligible(users[k])
    ensures var sends := BroadcastSends(EligibleRows(users, order), fetch);
      forall i, j :: 0 <= i < j < |sends| ==> sends[i].chatId != sends[j].chatId
    ensures var sends := BroadcastSends(EligibleRows(users, order), fetch);
      forall i :: 0 <= i < |sends| ==>
        && sends[i].chatId in users
        && sends[i] == WeatherUpdateFor(users[sends[i].chatId], i, fetch)
  {
    var rows := EligibleRows(users, order);
    var sends := BroadcastSends(rows, fetch);
    QueryRowsAreTableRows(users, order, nextId, rows);
    BroadcastSendsAt(rows, fetch);
    forall i | 0 <= i < |sends|
      ensures sends[i].chatId == rows[i].telegramId
      ensures sends[i].chatId in users && sends[i] == WeatherUpdateFor(users[sends[i].chatId], i, fetch)
    {
      assert sends[i] == WeatherUpdateFor(rows[i], i, fetch);
    }
    forall k ensures k in Recipients(sends) <==> k in users && Eligible(users[k]) {
      if k in Recipients(sends) {
        var i :| 0 <= i < |sends| && sends[i].chatId == k;
        assert rows[i] in rows && rows[i].telegramId == k;
        assert Eligible(rows[i]) && users[rows[i].telegramId] == rows[i];
      }
      if k in users && Eligible(users[k]) {
        var i :| 0 <= i < |rows| && rows[i] == users[k];
        assert sends[i].chatId == users[k].telegramId == k;
        assert k in Recipients(sends);
      }
    }
  }

  /** After `/setcity <city>` on a subscribed user, the next run sends that user the weather
      for the new city. */
  lemma SetCityThenRun(users: Table, order: seq<int>, nextId: nat, telegramId: int, city: string,
                       fetch: (nat, string) -> FetchResult)
    requires WellFormed(users, order, nextId)
    requires telegramId in users && users[telegramId].isSubscribed && city != ""
    ensures var updated := WithCity(users, telegramId, city);
      var sends := BroadcastSends(EligibleRows(updated, order), fetch);
      exists i :: 0 <= i < |sends| && sends[i] == Send(telegramId, FetchWeatherDataForCity(city, fetch(i, city)))
  {
    var updated := WithCity(users, telegramId, city);
    SetCityKeepsWellFormed(users, order, nextId, telegramId, city);
    var rows := EligibleRows(updated, order);
    QueryRowsAreTableRows(updated, order, nextId, rows);
    var i :| 0 <= i < |rows| && rows[i] == updated[telegramId];
    BroadcastSendsAt(rows, fetch);
    assert BroadcastSends(rows, fetch)[i] == WeatherUpdateFor(updated[telegramId], i, fetch);
  }

  // ---------------------------------------------------------------------------------------
  // The service object.

  class TelegramService {
    const userService: UserStore
    /** Every `sendMessage` call made so far, oldest first. */
    var outbox: seq<Send>

    constructor (userService: UserStore)
      ensures this.userService == userService && outbox == []
    {
      this.userService := userService;
      outbox := [];
    }

    /** `/start`: the welcome message, and no access to the store. */
    method HandleStart(msg: Message)
      modifies this
      ensures unchanged(userService)
      ensures outbox == old(outbox) + [Send(msg.chatId, Welcome)]
    {
      outbox := outbox + [Send(msg.chatId, Welcome)];
    }

    /** `/subscribe`: upsert the sender's row and reply. The store always returns the row, so
        the reply is "now subscribed" whenever the store call succeeds: the "already
        subscribed" reply is never sent. A store failure changes nothing and is answered with
        the fixed failure reply. */
    method HandleSubscribe(msg: Message, storeFault: bool)
      requires userService.Valid()
      modifies this, userService
      ensures userService.Valid()
      ensures storeFault ==> unchanged(userService)
      ensures !storeFault ==>
        && userService.users == Subscribed(old(userService.users), msg.fromId, old(userService.nextId))
        && (msg.fromId in old(userService.users) ==>
              userService.order == old(userService.order) && userService.nextId == old(userService.nextId))
        && (msg.fromId !in old(userService.users) ==>
              && userService.order == old(userService.order) + [msg.fromId]
              && userService.nextId == old(userService.nextId) + 1)
      ensures outbox == old(outbox) + [Send(msg.chatId, if storeFault then SubscribeFailed else NowSubscribed)]
    {
      if storeFault {
        outbox := outbox + [Send(msg.chatId, SubscribeFailed)];
      } else {
        var user := userService.SubscribeUser(msg.fromId);
        outbox := outbox + [Send(msg.chatId, SubscribeReply(user))];
      }
    }

    /** `/unsubscribe`: clear the sender's flag if a row exists. The reply is "now
        unsubscribed" exactly when a row existed (even one already unsubscribed), and
        "already unsubscribed" exactly when none did. */
    method HandleUnsubscribe(msg: Message, storeFault: bool)
      requires userService.Valid()
      modifies this, userService
      ensures userService.Valid()
      ensures storeFault ==> unchanged(userService)
      ensures !storeFault ==>
        && userService.users == Unsubscribed(old(userService.users), msg.fromId)
        && userService.order == old(userService.order)
        && userService.nextId == old(userService.nextId)
      ensures outbox == old(outbox) + [Send(msg.chatId,
        if storeFault then UnsubscribeFailed
        else if msg.fromId in old(userService.users) then NowUnsubscribed
        else AlreadyUnsubscribed)]
    {
      if storeFault {
        outbox := outbox + [Send(msg.chatId, UnsubscribeFailed)];
      } else {
        var user := userService.UnsubscribeUser(msg.fromId);
        outbox := outbox + [Send(msg.chatId, UnsubscribeReply(user))];
      }
    }

    /** `/setcity <city>`: overwrite the sender's city if a row exists. The confirmation is
        sent whenever the store call succeeds, also when no row existed and nothing changed. */
    method HandleSetCity(msg: Message, storeFault: bool)
      requires userService.Valid()
      requires SetCityArgument(msg.text).Some?
      modifies this, userService
      ensures userService.Valid()
      ensures storeFault ==> unchanged(userService)
      ensures !storeFault ==>
        && userService.users == WithCity(old(userService.users), msg.fromId, SetCityArgument(msg.text).value)
        && userService.order == old(userService.order)
        && userService.nextId == old(userService.nextId)
      ensures outbox == old(outbox) + [Send(msg.chatId,
        if storeFault then SetCityFailed else CityConfirmation(SetCityArgument(msg.text).value))]
    {
      var city := SetCityArgument(msg.text).value;
      if storeFault {
        outbox := outbox + [Send(msg.chatId, SetCityFailed)];
      } else {
        var _ := userService.SetPreferredCity(msg.fromId, city);
        outbox := outbox + [Send(msg.chatId, CityConfirmation(city))];
      }
    }

    /** One run of `sendDailyWeatherUpdate`: when the eligibility query fails nothing is sent;
        otherwise one message per eligible row, in query order. */
    method SendDailyWeatherUpdate(queryFault: bool, fetch: (nat, string) -> FetchResult)
      requires userService.Valid()
      modifies this
      ensures queryFault ==> outbox == old(outbox)
      ensures !queryFault ==>
        outbox == old(outbox) + BroadcastSends(EligibleRows(userService.users, userService.order), fetch)
    {
      if !queryFault {
        var subscribedUsers := userService.GetAllSubscribedUsersWithPreferredCity();
        assert forall k :: 0 <= k < |subscribedUsers| ==> Eligible(subscribedUsers[k]);
        for i := 0 to |subscribedUsers|
          invariant outbox == old(outbox) + BroadcastSends(subscribedUsers[..i], fetch)
        {
          var user := subscribedUsers[i];
          var city := user.preferredCity.value;
          var weatherData := FetchWeatherDataForCity(city, fetch(i, city));
          BroadcastStep(subscribedUsers, i, fetch);
          outbox := outbox + [Send(user.telegramId, weatherData)];
        }
        assert subscribedUsers[..|subscribedUsers|] == subscribedUsers;
      }
    }
  }
}
