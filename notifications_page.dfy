/** The notifications page (src/pages/NotificationsPage.tsx): pending follow
    requests, which leave the list once answered, and the activity feed with
    a sentence and an icon per notification type. */
module NotificationsPage {
  import opened Common
  import opened Types

  datatype FollowRequest = FollowRequest(id: string, from: User)

  /** The note a notification refers to, when it refers to one. */
  datatype NoteRef = NoteRef(id: string, title: string)

  datatype Notification = Notification(id: string, kind: string, from: User, note: Option<NoteRef>, createdAt: string)

  datatype Action = Accept | Decline

  /** The calls the page makes; api.ts does not define them. */
  datatype Request =
    | GetMyFollowRequests
    | GetNotifications
    | MarkNotificationsRead
    | RespondToFollowRequest(requestId: string, action: Action)

  // ---------------------------------------------------------------------
  // Text and icon of a notification

  /** `getNotificationText(notif)`. */
  function NotificationText(n: Notification): (text: string)
    ensures n.kind == "follow_request" ==> text == "sent you a follow request"
    ensures n.kind == "follow_accepted" ==> text == "accepted your follow request"
    ensures n.kind == "follow_removed" ==> text == "unfollowed you"
    ensures n.kind == "comment" && n.note.Some? && n.note.value.title != "" ==>
      text == "commented on \"" + n.note.value.title + "\""
    ensures n.kind == "comment" && (n.note.None? || n.note.value.title == "") ==>
      text == "commented on \"your note\""
    ensures n.kind !in {"follow_request", "follow_accepted", "follow_removed", "comment"} ==> text == ""
  {
    if n.kind == "follow_request" then "sent you a follow request"
    else if n.kind == "follow_accepted" then "accepted your follow request"
    else if n.kind == "follow_removed" then "unfollowed you"
    else if n.kind == "comment" then
      "commented on \"" + (if n.note.Some? && n.note.value.title != "" then n.note.value.title else "your note") + "\""
    else ""
  }

  datatype Icon = UserPlus | UserMinus | MessageCircle | BellIcon

  /** `getNotificationIcon(type)`. */
  function NotificationIcon(kind: string): (icon: Icon)
    ensures icon == UserPlus <==> kind == "follow_request" || kind == "follow_accepted"
    ensures icon == UserMinus <==> kind == "follow_removed"
    ensures icon == MessageCircle <==> kind == "comment"
  {
    if kind == "follow_request" || kind == "follow_accepted" then UserPlus
    else if kind == "follow_removed" then UserMinus
    else if kind == "comment" then MessageCircle
    else BellIcon
  }

  /** The default bell goes exactly with the empty sentence: with the types
      the page does not know. */
  lemma BellIffNoText(n: Notification)
    ensures NotificationIcon(n.kind) == BellIcon <==> NotificationText(n) == ""
  {
  }

  /** Where clicking a notification leads: the note's page, when there is a note. */
  function NavigationTarget(n: Notification): (path: Option<string>)
    ensures path.Some? <==> n.note.Some?
    ensures path.Some? ==> StripPrefix(path.value, "/notes/") == Some(n.note.value.id)
  {
    match n.note
    case Some(r) =>
      StripPrefixAfter("/notes/", r.id);
      Some("/notes/" + r.id)
    case None => None
  }

  // ---------------------------------------------------------------------
  // Answering a request

  /** `prev.filter(r => r._id !== requestId)`. */
  function WithoutRequest(requests: seq<FollowRequest>, requestId: string): (r: seq<FollowRequest>)
    ensures forall q :: q in r <==> q in requests && q.id != requestId
  {
    Filter(requests, (q: FollowRequest) => q.id != requestId)
  }

  /** Answering removes the answered request, every copy of it, and keeps
      each other request as often as it was there. */
  lemma WithoutRequestKeepsOthers(requests: seq<FollowRequest>, requestId: string, q: FollowRequest)
    ensures multiset(WithoutRequest(requests, requestId))[q] == if q.id == requestId then 0 else multiset(requests)[q]
  {
    FilterCount(requests, (r: FollowRequest) => r.id != requestId, q);
  }

  /** The other requests keep their order. */
  lemma WithoutRequestAppend(a: seq<FollowRequest>, b: seq<FollowRequest>, requestId: string)
    ensures WithoutRequest(a + b, requestId) == WithoutRequest(a, requestId) + WithoutRequest(b, requestId)
  {
    FilterAppend(a, b, (r: FollowRequest) => r.id != requestId);
  }

  class Page {
    var requests: seq<FollowRequest>
    var notifications: seq<Notification>
    var loading: bool

    constructor ()
      ensures requests == [] && notifications == [] && loading
    {
      requests := [];
      notifications := [];
      loading := true;
    }

    /** `fetchData`: both lists are requested together; they are taken, and
        the notifications marked read, only when both requests succeed.
        `loading` ends false. */
    method FetchData(requestsResult: Outcome<seq<FollowRequest>>, notificationsResult: Outcome<seq<Notification>>)
      returns (calls: seq<Request>)
      modifies this
      ensures !loading
      ensures requestsResult.Ok? && notificationsResult.Ok? ==>
        requests == requestsResult.value && notifications == notificationsResult.value
        && calls == [GetMyFollowRequests, GetNotifications, MarkNotificationsRead]
      ensures requestsResult.Failed? || notificationsResult.Failed? ==>
        requests == old(requests) && notifications == old(notifications)
        && calls == [GetMyFollowRequests, GetNotifications]
    {
      loading := true;
      calls := [GetMyFollowRequests, GetNotifications];
      if requestsResult.Ok? && notificationsResult.Ok? {
        requests := requestsResult.value;
        notifications := notificationsResult.value;
        calls := calls + [MarkNotificationsRead];
      }
      loading := false;
    }

    /** `handleRespond(requestId, action)`: the request leaves the list only
        once the answer is accepted by the server. */
    method HandleRespond(requestId: string, action: Action, result: Outcome<()>) returns (calls: seq<Request>)
      modifies this
      ensures calls == [RespondToFollowRequest(requestId, action)]
      ensures requests == if result.Ok? then WithoutRequest(old(requests), requestId) else old(requests)
      ensures notifications == old(notifications) && loading == old(loading)
    {
      calls := [RespondToFollowRequest(requestId, action)];
      if result.Ok? {
        requests := WithoutRequest(requests, requestId);
      }
    }
  }
}
