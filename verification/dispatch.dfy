/** The command-line driver (main.py): choosing notification channels,
    building the fetch request, limiting what is notified, fanning out to
    the channels, and the control flow of `--fetch`, `--visualize` and
    `--notify`. Environment variables and command-line values are explicit
    inputs; the fetch itself, the JSON store and the files written are
    values passed in and returned. */
module Dispatch {
  import opened Wrappers
  import opened Seqs
  import opened Models
  import Notification
  import Visualization
  import ArxivFetcher

  /** The environment variables the driver reads. */
  datatype Env = Env(botToken: Option<string>, chatId: Option<string>, webhookUrl: Option<string>)

  /** The command-line values the driver reads. */
  datatype Args = Args(
    fetch: bool,
    notify: bool,
    visualize: bool,
    notifier: Option<string>,
    webhookUrl: Option<string>,
    source: string,
    days: Option<int>,
    maxResults: int,
    limit: Option<int>)

  /** Python truthiness of an optional string: present and non-empty. */
  predicate Truthy(s: Option<string>) {
    s.Some? && s.value != ""
  }

  /** `get_webhook_url`: a non-empty `--webhook-url` wins, otherwise the
      environment's `WEBHOOK_URL` (which may be missing). */
  function GetWebhookUrl(argUrl: Option<string>, env: Env): (r: Option<string>)
    ensures Truthy(argUrl) ==> r == argUrl
    ensures !Truthy(argUrl) ==> r == env.webhookUrl
    ensures Truthy(r) <==> Truthy(argUrl) || Truthy(env.webhookUrl)
  {
    if Truthy(argUrl) then argUrl else env.webhookUrl
  }

  /** `get_configured_notifiers`: "telegram" exactly when both the bot
      token and the chat id are set and non-empty, "webhook" exactly when a
      webhook URL is given, telegram always first. */
  function ConfiguredNotifiers(env: Env, webhookUrl: Option<string>): (r: seq<string>)
    ensures "telegram" in r <==> Truthy(env.botToken) && Truthy(env.chatId)
    ensures "webhook" in r <==> Truthy(webhookUrl)
    ensures forall k :: 0 <= k < |r| ==> r[k] == "telegram" || r[k] == "webhook"
    ensures forall j, k :: 0 <= j < k < |r| ==> r[j] == "telegram" && r[k] == "webhook"
  {
    (if Truthy(env.botToken) && Truthy(env.chatId) then ["telegram"] else [])
    + (if Truthy(webhookUrl) then ["webhook"] else [])
  }

  /** `resolve_notifiers`: nothing for a missing or empty choice, the
      configured channels for "all", and the chosen channel alone otherwise,
      whether or not it is configured. */
  function ResolveNotifiers(choice: Option<string>, env: Env, webhookUrl: Option<string>): (r: seq<string>)
    ensures !Truthy(choice) ==> r == []
    ensures Truthy(choice) && choice.value == "all" ==> r == ConfiguredNotifiers(env, webhookUrl)
    ensures Truthy(choice) && choice.value != "all" ==> r == [choice.value]
  {
    if !Truthy(choice) then []
    else if choice.value == "all" then ConfiguredNotifiers(env, webhookUrl)
    else [choice.value]
  }

  /** The query and keyword arguments handed to a fetcher. */
  datatype FetchRequest = FetchRequest(query: string, maxResults: int, days: Option<int>)

  const ArxivQuery: string := "cat:cs.LG"

  /** `build_fetch_request`: arXiv is searched for machine-learning papers
      and Hacker News with an empty query; the result count is always
      passed, the day window only to arXiv and only when given. */
  function BuildFetchRequest(source: string, maxResults: int, days: Option<int>): (r: FetchRequest)
    ensures source == "arxiv" ==> r.query == ArxivQuery
    ensures source != "arxiv" ==> r.query == ""
    ensures r.maxResults == maxResults
    ensures r.days.Some? <==> source == "arxiv" && days.Some?
    ensures r.days.Some? ==> r.days == days
  {
    var query := if source == "arxiv" then ArxivQuery else "";
    var window := if source == "arxiv" && days.Some? then days else None;
    FetchRequest(query, maxResults, window)
  }

  /** `limit_articles_for_notification`: always a prefix of the articles;
      all of them without a limit, at most `limit` of them for a
      non-negative limit, and all but the last `-limit` for a negative one
      (Python slicing). */
  function LimitArticles(articles: seq<Article>, limit: Option<int>): (r: seq<Article>)
    ensures |r| <= |articles| && r == articles[..|r|]
    ensures limit.None? ==> r == articles
    ensures limit.Some? && limit.value >= 0 ==>
              |r| == (if limit.value < |articles| then limit.value else |articles|)
    ensures limit.Some? && limit.value < 0 ==>
              |r| == (if |articles| + limit.value < 0 then 0 else |articles| + limit.value)
  {
    if limit.None? then articles else PyPrefix(articles, limit.value)
  }

  /** A notifier the driver can create: the Telegram notifier, or a webhook
      notifier for a URL. */
  datatype Notifier =
    | Telegram(telegram: Notification.TelegramNotifier)
    | Webhook(url: string)

  /** `create_notifier`: a Telegram notifier needs both credentials; a
      webhook notifier needs a URL that the webhook notifier accepts (its
      constructor may reject it with a ValueError, here `accepts`); any other
      kind gives none. */
  function CreateNotifier(kind: string, env: Env, webhookUrl: Option<string>, accepts: string -> bool)
    : (r: Option<Notifier>)
    ensures kind == "telegram" ==>
              (r.Some? <==> Truthy(env.botToken) && Truthy(env.chatId))
              && (r.Some? ==> r.value == Telegram(Notification.TelegramNotifier(env.botToken.value, env.chatId.value)))
    ensures kind == "webhook" ==>
              (r.Some? <==> Truthy(webhookUrl) && accepts(webhookUrl.value))
              && (r.Some? ==> r.value == Webhook(webhookUrl.value))
    ensures kind != "telegram" && kind != "webhook" ==> r.None?
  {
    if kind == "telegram" then
      if Truthy(env.botToken) && Truthy(env.chatId) then
        Some(Telegram(Notification.TelegramNotifier(env.botToken.value, env.chatId.value)))
      else None
    else if kind == "webhook" then
      if Truthy(webhookUrl) && accepts(webhookUrl.value) then Some(Webhook(webhookUrl.value)) else None
    else None
  }

  /** One `notifier.send(articles)` call. */
  datatype Delivery = Delivery(notifier: Notifier, articles: seq<Article>)

  /** `send_notification`: one send of the articles when a notifier can be
      created for the kind, none otherwise. */
  function SendNotification(articles: seq<Article>, kind: string, env: Env, webhookUrl: Option<string>,
                            accepts: string -> bool): (r: seq<Delivery>)
    ensures |r| <= 1
    ensures r == [] <==> CreateNotifier(kind, env, webhookUrl, accepts).None?
    ensures r != [] ==> r[0].notifier == CreateNotifier(kind, env, webhookUrl, accepts).value
    ensures r != [] ==> r[0].articles == articles
  {
    match CreateNotifier(kind, env, webhookUrl, accepts)
    case Some(n) => [Delivery(n, articles)]
    case None => []
  }

  /** `broadcast_notifications`: `send_notification` for each kind, in the
      order given. */
  function Broadcast(articles: seq<Article>, kinds: seq<string>, env: Env, webhookUrl: Option<string>,
                     accepts: string -> bool): (r: seq<Delivery>)
    ensures |r| <= |kinds|
    ensures forall k :: 0 <= k < |r| ==> r[k].articles == articles
    decreases |kinds|
  {
    if |kinds| == 0 then []
    else SendNotification(articles, kinds[0], env, webhookUrl, accepts)
         + Broadcast(articles, kinds[1..], env, webhookUrl, accepts)
  }

  /** Broadcasting to two lists of kinds is broadcasting to the first and
      then to the second. */
  lemma {:induction false} BroadcastAppend(articles: seq<Article>, xs: seq<string>, ys: seq<string>, env: Env,
                                           webhookUrl: Option<string>, accepts: string -> bool)
    ensures Broadcast(articles, xs + ys, env, webhookUrl, accepts)
            == Broadcast(articles, xs, env, webhookUrl, accepts) + Broadcast(articles, ys, env, webhookUrl, accepts)
    decreases |xs|
  {
    if |xs| == 0 {
      assert xs + ys == ys;
    } else {
      assert (xs + ys)[0] == xs[0];
      assert (xs + ys)[1..] == xs[1..] + ys;
      BroadcastAppend(articles, xs[1..], ys, env, webhookUrl, accepts);
    }
  }

  /** When every kind yields a notifier, there is exactly one send per
      kind, in the order of the kinds, each to that kind's notifier. */
  lemma {:induction false} BroadcastOnePerChannel(articles: seq<Article>, kinds: seq<string>, env: Env,
                                                  webhookUrl: Option<string>, accepts: string -> bool)
    requires forall k :: 0 <= k < |kinds| ==> CreateNotifier(kinds[k], env, webhookUrl, accepts).Some?
    ensures |Broadcast(articles, kinds, env, webhookUrl, accepts)| == |kinds|
    ensures forall k :: 0 <= k < |kinds| ==>
              Broadcast(articles, kinds, env, webhookUrl, accepts)[k]
              == Delivery(CreateNotifier(kinds[k], env, webhookUrl, accepts).value, articles)
    decreases |kinds|
  {
    if |kinds| > 0 {
      BroadcastOnePerChannel(articles, kinds[1..], env, webhookUrl, accepts);
    }
  }

  /** Every send goes to a notifier created for one of the kinds. */
  lemma {:induction false} BroadcastTargets(articles: seq<Article>, kinds: seq<string>, env: Env,
                                            webhookUrl: Option<string>, accepts: string -> bool)
    ensures forall d :: d in Broadcast(articles, kinds, env, webhookUrl, accepts) ==>
              exists k :: 0 <= k < |kinds| && CreateNotifier(kinds[k], env, webhookUrl, accepts) == Some(d.notifier)
    decreases |kinds|
  {
    if |kinds| > 0 {
      BroadcastTargets(articles, kinds[1..], env, webhookUrl, accepts);
      forall d | d in Broadcast(articles, kinds[1..], env, webhookUrl, accepts)
        ensures exists k :: 0 <= k < |kinds| && CreateNotifier(kinds[k], env, webhookUrl, accepts) == Some(d.notifier)
      {
        var k :| 0 <= k < |kinds[1..]| && CreateNotifier(kinds[1..][k], env, webhookUrl, accepts) == Some(d.notifier);
        assert kinds[1..][k] == kinds[k + 1];
      }
    }
  }

  /** The send one kind contributes to a broadcast, as a function of the
      kind. */
  function SendTo(articles: seq<Article>, env: Env, webhookUrl: Option<string>, accepts: string -> bool)
    : string -> Option<Delivery>
  {
    kind => match CreateNotifier(kind, env, webhookUrl, accepts)
            case Some(n) => Some(Delivery(n, articles))
            case None => None
  }

  /** The kinds a notifier can be created for. */
  function Creatable(env: Env, webhookUrl: Option<string>, accepts: string -> bool): string -> bool {
    kind => CreateNotifier(kind, env, webhookUrl, accepts).Some?
  }

  /** A broadcast is the per-kind send mapped over the kinds, dropping the
      kinds without a notifier. */
  lemma {:induction false} BroadcastIsFilterMap(articles: seq<Article>, kinds: seq<string>, env: Env,
                                                webhookUrl: Option<string>, accepts: string -> bool)
    ensures Broadcast(articles, kinds, env, webhookUrl, accepts)
            == FilterMap(kinds, SendTo(articles, env, webhookUrl, accepts))
    decreases |kinds|
  {
    if |kinds| > 0 {
      BroadcastIsFilterMap(articles, kinds[1..], env, webhookUrl, accepts);
    }
  }

  /** Every kind a notifier can be created for gets exactly one send of the
      articles, in the order of the kinds, and the other kinds get none. */
  lemma BroadcastReachesCreatable(articles: seq<Article>, kinds: seq<string>, env: Env,
                                  webhookUrl: Option<string>, accepts: string -> bool)
    ensures var sent := Broadcast(articles, kinds, env, webhookUrl, accepts);
            var reachable := Filter(kinds, Creatable(env, webhookUrl, accepts));
            && |sent| == |reachable|
            && forall k :: 0 <= k < |sent| ==>
                 sent[k] == Delivery(CreateNotifier(reachable[k], env, webhookUrl, accepts).value, articles)
    ensures forall k :: 0 <= k < |kinds| && CreateNotifier(kinds[k], env, webhookUrl, accepts).Some? ==>
              Delivery(CreateNotifier(kinds[k], env, webhookUrl, accepts).value, articles)
              in Broadcast(articles, kinds, env, webhookUrl, accepts)
  {
    var send, keep := SendTo(articles, env, webhookUrl, accepts), Creatable(env, webhookUrl, accepts);
    var sent := Broadcast(articles, kinds, env, webhookUrl, accepts);
    var reachable := Filter(kinds, keep);
    BroadcastIsFilterMap(articles, kinds, env, webhookUrl, accepts);
    FilterMapOfFilter(kinds, send, keep);
    FilterSpec(kinds, keep);
    forall k | 0 <= k < |sent|
      ensures sent[k] == Delivery(CreateNotifier(reachable[k], env, webhookUrl, accepts).value, articles)
    {
      assert send(reachable[k]) == Some(sent[k]);
    }
    forall k | 0 <= k < |kinds| && CreateNotifier(kinds[k], env, webhookUrl, accepts).Some?
      ensures Delivery(CreateNotifier(kinds[k], env, webhookUrl, accepts).value, articles) in sent
    {
      assert keep(kinds[k]);
      assert kinds[k] in reachable;
      var j :| 0 <= j < |reachable| && reachable[j] == kinds[k];
      assert send(reachable[j]) == Some(sent[j]);
    }
  }

  /** What one run of the driver leaves behind: the fetch request made (if
      any), the stored articles, the page written (if any), the sends made,
      in order, and the error that ended the run early (if any). */
  datatype Outcome = Outcome(
    request: Option<FetchRequest>,
    stored: seq<Article>,
    page: Option<string>,
    deliveries: seq<Delivery>,
    error: Option<ArxivFetcher.Crash>)

  /** `notify_no_articles_if_needed`: unless skipped, a reminder (a send of
      no articles) broadcast to the resolved channels. */
  function NotifyNoArticles(args: Args, env: Env, webhookUrl: Option<string>, skipNotify: bool,
                            accepts: string -> bool): (r: seq<Delivery>)
    ensures skipNotify ==> r == []
    ensures !skipNotify ==> r == Broadcast([], ResolveNotifiers(args.notifier, env, webhookUrl), env, webhookUrl, accepts)
    ensures forall k :: 0 <= k < |r| ==> r[k].articles == []
  {
    if skipNotify then []
    else
      var kinds := ResolveNotifiers(args.notifier, env, webhookUrl);
      if |kinds| == 0 then [] else Broadcast([], kinds, env, webhookUrl, accepts)
  }

  /** `handle_fetch`: with nothing fetched, the store is untouched and the
      reminder goes out unless skipped; otherwise the fetched articles
      replace the store and, unless notification is skipped, the limited
      prefix of them is broadcast to the resolved channels. Returns the new
      store and the sends. */
  function HandleFetch(args: Args, env: Env, webhookUrl: Option<string>, fetched: seq<Article>,
                       stored: seq<Article>, skipNotify: bool, accepts: string -> bool)
    : (r: (seq<Article>, seq<Delivery>))
    ensures |fetched| == 0 ==> r.0 == stored
    ensures |fetched| > 0 ==> r.0 == fetched
    ensures skipNotify ==> r.1 == []
    ensures |fetched| == 0 ==> r.1 == NotifyNoArticles(args, env, webhookUrl, skipNotify, accepts)
    ensures |fetched| > 0 && !skipNotify ==>
              r.1 == Broadcast(LimitArticles(fetched, args.limit), ResolveNotifiers(args.notifier, env, webhookUrl),
                               env, webhookUrl, accepts)
    ensures |fetched| > 0 ==> forall k :: 0 <= k < |r.1| ==> r.1[k].articles == LimitArticles(fetched, args.limit)
    ensures |r.1| <= |ResolveNotifiers(args.notifier, env, webhookUrl)|
  {
    if |fetched| == 0 then
      (stored, NotifyNoArticles(args, env, webhookUrl, skipNotify, accepts))
    else if skipNotify then (fetched, [])
    else
      var kinds := ResolveNotifiers(args.notifier, env, webhookUrl);
      if |kinds| == 0 then (fetched, [])
      else (fetched, Broadcast(LimitArticles(fetched, args.limit), kinds, env, webhookUrl, accepts))
  }

  /** `handle_visualize`: the page for the stored articles, or none when
      the store is empty. */
  function HandleVisualize(stored: seq<Article>): (r: Option<string>)
    ensures r.None? <==> |stored| == 0
    ensures r.Some? ==> r.value == Visualization.GenerateHtml(stored)
  {
    if |stored| == 0 then None else Some(Visualization.GenerateHtml(stored))
  }

  /** `handle_notify`: without a channel choice or without stored
      articles nothing is sent; otherwise all stored articles, unlimited,
      are broadcast to the resolved channels. */
  function HandleNotify(args: Args, env: Env, webhookUrl: Option<string>, stored: seq<Article>,
                        accepts: string -> bool): (r: seq<Delivery>)
    ensures !Truthy(args.notifier) || |stored| == 0 ==> r == []
    ensures Truthy(args.notifier) && |stored| > 0 ==>
              r == Broadcast(stored, ResolveNotifiers(args.notifier, env, webhookUrl), env, webhookUrl, accepts)
    ensures forall k :: 0 <= k < |r| ==> r[k].articles == stored
  {
    if !Truthy(args.notifier) || |stored| == 0 then []
    else Broadcast(stored, ResolveNotifiers(args.notifier, env, webhookUrl), env, webhookUrl, accepts)
  }

  /** The sends of the fetch step: none without `--fetch` or when the
      fetch raised. */
  function FetchSends(args: Args, env: Env, fetched: Result<seq<Article>, ArxivFetcher.Crash>, stored: seq<Article>,
                      accepts: string -> bool): seq<Delivery>
  {
    if args.fetch && fetched.Success? then
      HandleFetch(args, env, GetWebhookUrl(args.webhookUrl, env), fetched.value, stored, args.notify, accepts).1
    else []
  }

  /** The sends of the notify step, reading the store the fetch left. */
  function NotifySends(args: Args, env: Env, store: seq<Article>, accepts: string -> bool): seq<Delivery> {
    if args.notify then HandleNotify(args, env, GetWebhookUrl(args.webhookUrl, env), store, accepts) else []
  }

  /** `main`: nothing happens unless one of `--fetch`, `--visualize`,
      `--notify` is given; otherwise fetch (skipping its own notification
      when `--notify` is also given), then visualize, then notify, in that
      order, each reading the store the previous step left. `fetched` is
      what the fetcher returns for the request; a fetch that raises ends the
      run there, before anything is stored, drawn or sent. */
  function Run(args: Args, env: Env, fetched: Result<seq<Article>, ArxivFetcher.Crash>, stored: seq<Article>,
               accepts: string -> bool)
    : (r: Option<Outcome>)
    ensures r.None? <==> !(args.fetch || args.visualize || args.notify)
    ensures r.Some? ==> (r.value.request.Some? <==> args.fetch)
    ensures r.Some? && args.fetch ==>
              r.value.request == Some(BuildFetchRequest(args.source, args.maxResults, args.days))
    ensures r.Some? ==> (r.value.error.Some? <==> args.fetch && fetched.Failure?)
    ensures r.Some? && r.value.error.Some? ==>
              r.value.error.value == fetched.error && r.value.stored == stored
              && r.value.page.None? && r.value.deliveries == []
    ensures r.Some? && !args.fetch ==> r.value.stored == stored
    ensures r.Some? && args.fetch && fetched == Success([]) ==> r.value.stored == stored
    ensures r.Some? && args.fetch && fetched.Success? && |fetched.value| > 0 ==> r.value.stored == fetched.value
    ensures r.Some? && !args.visualize ==> r.value.page.None?
    ensures r.Some? && r.value.error.None? && args.visualize ==> r.value.page == HandleVisualize(r.value.stored)
    ensures r.Some? && r.value.error.None? ==>
              r.value.deliveries == FetchSends(args, env, fetched, stored, accepts)
                                    + NotifySends(args, env, r.value.stored, accepts)
  {
    if !(args.fetch || args.visualize || args.notify) then None
    else
      var webhookUrl := GetWebhookUrl(args.webhookUrl, env);
      if args.fetch && fetched.Failure? then
        Some(Outcome(Some(BuildFetchRequest(args.source, args.maxResults, args.days)), stored, None, [],
                     Some(fetched.error)))
      else
        var (request, store1, sent1) :=
          if args.fetch then
            var req := BuildFetchRequest(args.source, args.maxResults, args.days);
            var (s, d) := HandleFetch(args, env, webhookUrl, fetched.value, stored, args.notify, accepts);
            (Some(req), s, d)
          else (None, stored, []);
        var page := if args.visualize then HandleVisualize(store1) else None;
        var sent2 := if args.notify then HandleNotify(args, env, webhookUrl, store1, accepts) else [];
        Some(Outcome(request, store1, page, sent1 + sent2, None))
  }

  /** With both `--fetch` and `--notify`, the fetch step sends nothing, so
      the articles go out once, from the notify step: every send carries
      the whole store the fetch left, with no limit applied. */
  lemma FetchAndNotifySendOnce(args: Args, env: Env, fetched: seq<Article>, stored: seq<Article>,
                               accepts: string -> bool)
    requires args.fetch && args.notify
    ensures var store := if |fetched| > 0 then fetched else stored;
            var webhookUrl := GetWebhookUrl(args.webhookUrl, env);
            Run(args, env, Success(fetched), stored, accepts).value.deliveries
            == HandleNotify(args, env, webhookUrl, store, accepts)
  {
  }

  /** With `--fetch` alone and something fetched, the limited prefix of the
      fetched articles goes to every resolved channel a notifier can be
      created for, exactly once each and in order, and nowhere else. */
  lemma FetchAloneSendsLimitedPrefix(args: Args, env: Env, fetched: seq<Article>, stored: seq<Article>,
                                     accepts: string -> bool)
    requires args.fetch && !args.notify && |fetched| > 0
    ensures var out := Run(args, env, Success(fetched), stored, accepts).value;
            var webhookUrl := GetWebhookUrl(args.webhookUrl, env);
            var reachable := Filter(ResolveNotifiers(args.notifier, env, webhookUrl), Creatable(env, webhookUrl, accepts));
            && |out.deliveries| == |reachable|
            && forall k :: 0 <= k < |out.deliveries| ==>
                 out.deliveries[k] == Delivery(CreateNotifier(reachable[k], env, webhookUrl, accepts).value,
                                               LimitArticles(fetched, args.limit))
  {
    var out := Run(args, env, Success(fetched), stored, accepts).value;
    var webhookUrl := GetWebhookUrl(args.webhookUrl, env);
    var kinds := ResolveNotifiers(args.notifier, env, webhookUrl);
    var sent := Broadcast(LimitArticles(fetched, args.limit), kinds, env, webhookUrl, accepts);
    assert out.deliveries == sent + [];
    BroadcastReachesCreatable(LimitArticles(fetched, args.limit), kinds, env, webhookUrl, accepts);
  }

  /** With `--fetch` alone and nothing fetched, the store is untouched and
      the reminder, carrying no articles, goes to every resolved channel a
      notifier can be created for, exactly once each and in order. */
  lemma FetchNothingSendsReminder(args: Args, env: Env, stored: seq<Article>, accepts: string -> bool)
    requires args.fetch && !args.notify
    ensures var out := Run(args, env, Success([]), stored, accepts).value;
            var webhookUrl := GetWebhookUrl(args.webhookUrl, env);
            var reachable := Filter(ResolveNotifiers(args.notifier, env, webhookUrl), Creatable(env, webhookUrl, accepts));
            && out.stored == stored
            && |out.deliveries| == |reachable|
            && forall k :: 0 <= k < |out.deliveries| ==>
                 out.deliveries[k] == Delivery(CreateNotifier(reachable[k], env, webhookUrl, accepts).value, [])
  {
    var out := Run(args, env, Success([]), stored, accepts).value;
    var webhookUrl := GetWebhookUrl(args.webhookUrl, env);
    var kinds := ResolveNotifiers(args.notifier, env, webhookUrl);
    var sent := Broadcast([], kinds, env, webhookUrl, accepts);
    assert out.deliveries == sent + [];
    BroadcastReachesCreatable([], kinds, env, webhookUrl, accepts);
  }

  /** With `--notify` and no fetch, every stored article goes to every
      resolved channel a notifier can be created for, exactly once each and
      in order, provided a channel was chosen and the store is not empty. */
  lemma NotifySendsWholeStore(args: Args, env: Env, stored: seq<Article>, accepts: string -> bool)
    requires !args.fetch && args.notify && Truthy(args.notifier) && |stored| > 0
    ensures var out := Run(args, env, Success([]), stored, accepts).value;
            var webhookUrl := GetWebhookUrl(args.webhookUrl, env);
            var reachable := Filter(ResolveNotifiers(args.notifier, env, webhookUrl), Creatable(env, webhookUrl, accepts));
            && |out.deliveries| == |reachable|
            && forall k :: 0 <= k < |out.deliveries| ==>
                 out.deliveries[k] == Delivery(CreateNotifier(reachable[k], env, webhookUrl, accepts).value, stored)
  {
    var out := Run(args, env, Success([]), stored, accepts).value;
    var webhookUrl := GetWebhookUrl(args.webhookUrl, env);
    var kinds := ResolveNotifiers(args.notifier, env, webhookUrl);
    var sent := Broadcast(stored, kinds, env, webhookUrl, accepts);
    assert out.deliveries == [] + sent;
    BroadcastReachesCreatable(stored, kinds, env, webhookUrl, accepts);
  }

  /** With `--fetch` alone and nothing fetched, the reminder carries no
      articles, so the Telegram notifier posts nothing for it. */
  lemma ReminderPostsNothingToTelegram(args: Args, env: Env, stored: seq<Article>, accepts: string -> bool)
    requires args.fetch && !args.notify
    ensures var out := Run(args, env, Success([]), stored, accepts).value;
            forall k :: 0 <= k < |out.deliveries| && out.deliveries[k].notifier.Telegram? ==>
              Notification.Send(out.deliveries[k].notifier.telegram, out.deliveries[k].articles).None?
  {
  }
}
