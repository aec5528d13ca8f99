/**
 * The share dialog of one file: the expiry presets, the remaining-time badge
 * of each user share, sharing with a user by e-mail, creating a link, and
 * revoking a link or a user's access. The HTTP calls are the server's
 * business; here each call's outcome is a parameter and each method reports
 * the requests it issues, in order.
 */
module ShareModal {
  import opened Common
  import opened Text
  import opened Seqs

  // ---------------------------------------------------------------- expiry presets

  datatype ExpiryOption = ExpiryOption(caption: string, seconds: nat)

  /** `getExpiryOptions`: the preset durations in seconds; 0 means the grant never expires. */
  const ExpiryOptions: seq<ExpiryOption> := [
    ExpiryOption("1 hour", 3600),
    ExpiryOption("6 hours", 21600),
    ExpiryOption("24 hours", 86400),
    ExpiryOption("7 days", 604800),
    ExpiryOption("30 days", 2592000),
    ExpiryOption("Never expires", 0)
  ]

  /** The initial value of both expiry fields: the 24-hour preset. */
  const DefaultExpiry: string := "86400"

  /**
   * The presets are whole hours and days, strictly increasing, and only the
   * last one, "Never expires", is 0.
   */
  lemma ExpiryPresets()
    ensures |ExpiryOptions| == 6
    ensures forall i, j :: 0 <= i < j < 5 ==> ExpiryOptions[i].seconds < ExpiryOptions[j].seconds
    ensures forall i :: 0 <= i < 5 ==> ExpiryOptions[i].seconds > 0 && ExpiryOptions[i].seconds % 3600 == 0
    ensures ExpiryOptions[5].seconds == 0 && ExpiryOptions[5].caption == "Never expires"
    ensures ExpiryOptions[2].seconds == 24 * 3600 && ExpiryOptions[3].seconds == 7 * 86400 && ExpiryOptions[4].seconds == 30 * 86400
  {
  }

  /**
   * `Number(value)` of an expiry field: blank is 0, decimal digits are their
   * value; anything else a number input accepts (a sign, a fraction, an
   * exponent) is outside the model and gives None.
   */
  function ExpiryNumber(value: string): Option<nat>
  {
    var t := Trim(value);
    if t == [] then Some(0)
    else if AllDigits(t) then Some(ParseDecimal(t))
    else None
  }

  /** Picking a preset stores `option.value.toString()`, and the request then carries exactly its seconds. */
  lemma PresetRoundTrip(option: ExpiryOption)
    ensures ExpiryNumber(Decimal(option.seconds)) == Some(option.seconds)
  {
    var d := Decimal(option.seconds);
    assert Trim(d) == d by {
      assert !IsJsWhitespace(d[0]) && !IsJsWhitespace(d[|d| - 1]);
    }
    ParseDecimalOfDecimal(option.seconds);
  }

  // ---------------------------------------------------------------- remaining time

  /** Integer division rounding toward zero, as dayjs's `diff` does. */
  function TruncDiv(a: int, b: int): int
    requires b > 0
  {
    if a >= 0 then a / b else -((-a) / b)
  }

  /** `expiresAt.isBefore(now)`, with both instants in milliseconds. */
  predicate IsExpired(expiresAt: int, now: int)
  {
    expiresAt < now
  }

  /** `expiresAt.diff(now, 'minute')`. */
  function MinutesLeft(expiresAt: int, now: int): int
  {
    TruncDiv(expiresAt - now, 60000)
  }

  /** `getTimeRemainingText`. */
  function TimeRemainingText(expiresAt: int, now: int): string
  {
    if IsExpired(expiresAt, now) then "Expired"
    else
      var m := MinutesLeft(expiresAt, now);
      if m < 60 then Decimal(m) + "m"
      else if m < 1440 then Decimal(m / 60) + "h"
      else Decimal(m / 1440) + "d"
  }

  /** The number of minutes one unit letter of the badge stands for. */
  function UnitMinutes(u: char): nat
  {
    if u == 'm' then 1 else if u == 'h' then 60 else if u == 'd' then 1440 else 0
  }

  /**
   * Reading the badge back: "Expired" exactly when the instant has passed;
   * otherwise digits and a unit letter, where the digits count whole units
   * of the time left (rounded down), and the unit is minutes below an hour,
   * days from a day on, and hours in between.
   */
  lemma TimeRemainingTextReadsBack(expiresAt: int, now: int)
    ensures TimeRemainingText(expiresAt, now) == "Expired" <==> IsExpired(expiresAt, now)
    ensures !IsExpired(expiresAt, now) ==>
      var badge := TimeRemainingText(expiresAt, now);
      var m := MinutesLeft(expiresAt, now);
      && |badge| >= 2
      && AllDigits(badge[..|badge| - 1])
      && badge[|badge| - 1] in "mhd"
      && (badge[|badge| - 1] == 'm' <==> m < 60)
      && (badge[|badge| - 1] == 'd' <==> m >= 1440)
      && ParseDecimal(badge[..|badge| - 1]) * UnitMinutes(badge[|badge| - 1]) <= m
      && m < (ParseDecimal(badge[..|badge| - 1]) + 1) * UnitMinutes(badge[|badge| - 1])
  {
    if !IsExpired(expiresAt, now) {
      var m := MinutesLeft(expiresAt, now);
      assert m >= 0;
      var n := if m < 60 then m else if m < 1440 then m / 60 else m / 1440;
      var badge := TimeRemainingText(expiresAt, now);
      assert badge == Decimal(n) + [badge[|badge| - 1]];
      assert badge[..|badge| - 1] == Decimal(n);
      ParseDecimalOfDecimal(n);
      assert badge != "Expired" by {
        assert IsDigit(badge[0]) && !IsDigit("Expired"[0]);
      }
    }
  }

  datatype Status = Red | Yellow | Green

  /** `getStatusColor`. */
  function StatusOf(expiresAt: int, now: int): Status
  {
    if IsExpired(expiresAt, now) then Red
    else if MinutesLeft(expiresAt, now) < 1440 then Yellow
    else Green
  }

  function StatusClass(s: Status): string
  {
    match s
    case Red => "text-red-600 bg-red-50"
    case Yellow => "text-yellow-600 bg-yellow-50"
    case Green => "text-green-600 bg-green-50"
  }

  /**
   * The colour agrees with the badge: red exactly for "Expired", green exactly
   * for a badge counted in days. ("Expired" also ends in 'd', so the day test
   * must exclude it.)
   */
  lemma StatusAgreesWithText(expiresAt: int, now: int)
    ensures var badge := TimeRemainingText(expiresAt, now);
      && (StatusOf(expiresAt, now) == Red <==> badge == "Expired")
      && (StatusOf(expiresAt, now) == Green <==> badge != "Expired" && badge[|badge| - 1] == 'd')
      && (StatusOf(expiresAt, now) == Yellow <==> badge[|badge| - 1] in "mh")
  {
    TimeRemainingTextReadsBack(expiresAt, now);
  }

  lemma TruncDivMonotone(a: int, b: int, d: int)
    requires a <= b && d > 0
    ensures TruncDiv(a, d) <= TruncDiv(b, d)
  {
    if a < 0 && b >= 0 {
      assert TruncDiv(a, d) <= 0;
    } else if a < 0 {
      assert -b <= -a;
      DivMonotone(-b, -a, d);
    } else {
      DivMonotone(a, b, d);
    }
  }

  lemma DivMonotone(a: nat, b: nat, d: nat)
    requires a <= b && d > 0
    ensures a / d <= b / d
  {
    var qa, qb := a / d, b / d;
    if qb < qa {
      MulMonotone(qb + 1, qa, d);
    }
  }

  lemma MulMonotone(x: int, y: int, d: nat)
    requires x <= y
    ensures x * d <= y * d
  {
  }

  function StatusRank(s: Status): nat
  {
    match s
    case Red => 0
    case Yellow => 1
    case Green => 2
  }

  /** A later expiry never shows a worse status at the same instant. */
  lemma StatusMonotone(e1: int, e2: int, now: int)
    requires e1 <= e2
    ensures StatusRank(StatusOf(e1, now)) <= StatusRank(StatusOf(e2, now))
  {
    TruncDivMonotone(e1 - now, e2 - now, 60000);
  }

  // ---------------------------------------------------------------- shares and links

  datatype Grantee = Grantee(id: string, name: string, email: string)

  /** An entry of `sharedUsers`: the share record's own `_id`, the grantee, and the expiry instant. */
  datatype UserShare = UserShare(id: string, grantee: Grantee, expiresAt: int)

  /** An entry of `generatedLinks`. */
  datatype ShareLink = ShareLink(url: string, expiresAt: Option<string>, token: string, createdAt: string)

  /** The link built from the server's answer: `${origin}/shared/${token}`. */
  function NewLink(origin: string, token: string, expiresAt: Option<string>, createdAt: string): (l: ShareLink)
    ensures l.token == token && l.expiresAt == expiresAt && l.createdAt == createdAt
    ensures StartsWith(l.url, origin) && l.url[|origin|..] == "/shared/" + token
    ensures l.url[|origin| + 8..] == token
  {
    ShareLink(origin + "/shared/" + token, expiresAt, token, createdAt)
  }

  datatype ExpiryDisplay = NeverExpires | ExpiresOn(when: string)

  /** The link card's expiry line: a falsy `expiresAt` reads "Never expires". */
  function LinkExpiryDisplay(l: ShareLink): (d: ExpiryDisplay)
    ensures d == NeverExpires <==> !Truthy(l.expiresAt)
    ensures d.ExpiresOn? ==> d.when == l.expiresAt.value
  {
    if Truthy(l.expiresAt) then ExpiresOn(l.expiresAt.value) else NeverExpires
  }

  /** `prev.filter(l => l.token !== token)`. */
  function LinksWithout(links: seq<ShareLink>, token: string): seq<ShareLink>
  {
    Filter(links, (l: ShareLink) => l.token != token)
  }

  /** Revoking a link drops exactly the links with that token and keeps the rest in order. */
  lemma RevokeLinkRemovesExactly(links: seq<ShareLink>, token: string, l: ShareLink)
    ensures forall i :: 0 <= i < |LinksWithout(links, token)| ==> LinksWithout(links, token)[i].token != token
    ensures IsSubsequence(LinksWithout(links, token), links)
    ensures multiset(LinksWithout(links, token))[l] == if l.token == token then 0 else multiset(links)[l]
  {
    FilterIsSubsequence(links, (l: ShareLink) => l.token != token);
    FilterCount(links, (l: ShareLink) => l.token != token, l);
  }

  /**
   * `prev.filter(u => u._id !== userId)` as written: it compares the share
   * record's id, while the revoke button passes the grantee's id.
   */
  function SharesAfterRevokeAsWritten(shares: seq<UserShare>, userId: string): seq<UserShare>
  {
    Filter(shares, (u: UserShare) => u.id != userId)
  }

  /** The revoke button of a share passes `user.grantee._id`. */
  function RevokeButtonArgument(share: UserShare): string
  {
    share.grantee.id
  }

  /**
   * As written, revoking through the button leaves the local list unchanged
   * whenever no share record happens to have the grantee's id as its own id;
   * for one share "s1" of grantee "u1" the revoked share stays on screen.
   */
  lemma RevokeUserShareAsWrittenKeepsEntry(shares: seq<UserShare>, k: nat)
    requires k < |shares|
    requires forall i :: 0 <= i < |shares| ==> shares[i].id != RevokeButtonArgument(shares[k])
    ensures SharesAfterRevokeAsWritten(shares, RevokeButtonArgument(shares[k])) == shares
    ensures shares[k] in SharesAfterRevokeAsWritten(shares, RevokeButtonArgument(shares[k]))
  {
  }

  lemma RevokeUserShareAsWrittenExample()
    ensures var s := UserShare("s1", Grantee("u1", "Ann", "ann@example.com"), 0);
      SharesAfterRevokeAsWritten([s], RevokeButtonArgument(s)) == [s]
  {
    var s := UserShare("s1", Grantee("u1", "Ann", "ann@example.com"), 0);
    RevokeUserShareAsWrittenKeepsEntry([s], 0);
  }

  /** The evidently intended update: drop the shares of the revoked grantee. */
  function SharesAfterRevoke(shares: seq<UserShare>, granteeId: string): seq<UserShare>
  {
    Filter(shares, (u: UserShare) => u.grantee.id != granteeId)
  }

  /**
   * Revoking a grantee through the button removes that grantee's shares,
   * including the one whose button was pressed, and keeps every other share
   * in order.
   */
  lemma RevokeUserShareRemovesGrantee(shares: seq<UserShare>, k: nat, s: UserShare)
    requires k < |shares|
    ensures var r := SharesAfterRevoke(shares, RevokeButtonArgument(shares[k]));
      && shares[k] !in r
      && (forall i :: 0 <= i < |r| ==> r[i].grantee.id != shares[k].grantee.id)
      && IsSubsequence(r, shares)
      && multiset(r)[s] == if s.grantee.id == shares[k].grantee.id then 0 else multiset(shares)[s]
  {
    var g := RevokeButtonArgument(shares[k]);
    FilterIsSubsequence(shares, (u: UserShare) => u.grantee.id != g);
    FilterCount(shares, (u: UserShare) => u.grantee.id != g, s);
  }

  // ---------------------------------------------------------------- the dialog's state

  /** `err.response?.data?.error || err.response?.data?.message || err.message`. */
  function LookupErrorText(e: ApiError): string
  {
    OrElse(e.dataError, OrElse(e.dataMessage, e.message))
  }

  /** `error.response?.data?.error || error.message`. */
  function ErrorText(e: ApiError): string
  {
    OrElse(e.dataError, e.message)
  }

  datatype MessageKind = NoMessage | Info | Success | Error

  /** The messages the dialog shows; `NoticeText` spells each one out. */
  datatype Notice =
    | NoNotice
    | BlankEmail
    | LookupFailed(reason: string)
    | SharingFailed(reason: string)
    | SharedWith(email: string)
    | LinkCreated
    | LinkFailed(reason: string)
    | LinkRevoked
    | RevokeLinkFailed(reason: string)
    | AccessRevoked
    | RevokeAccessFailed(reason: string)

  function NoticeText(n: Notice): string
  {
    match n
    case NoNotice => ""
    case BlankEmail => "Please enter an email address"
    case LookupFailed(r) => "User lookup failed: " + r
    case SharingFailed(r) => "Sharing failed: " + r
    case SharedWith(e) => "File shared with " + e
    case LinkCreated => "Shareable link created successfully!"
    case LinkFailed(r) => "Failed to create link: " + r
    case LinkRevoked => "Link revoked successfully"
    case RevokeLinkFailed(r) => "Failed to revoke link: " + r
    case AccessRevoked => "Access revoked successfully"
    case RevokeAccessFailed(r) => "Failed to revoke access: " + r
  }

  /** The colour class `showMessage` pairs with each message. */
  function NoticeKind(n: Notice): MessageKind
  {
    match n
    case NoNotice => NoMessage
    case SharedWith(_) => Success
    case LinkCreated => Success
    case LinkRevoked => Success
    case AccessRevoked => Success
    case _ => Error
  }

  /** The server's answer to the link request: `res.data.link` and `res.data.expiresAt`. */
  datatype LinkResponse = LinkResponse(link: string, expiresAt: Option<string>)

  /** The server's answer to the shares request; `res.data` may be empty, and each list may be missing. */
  datatype SharesResponse = SharesResponse(users: Option<seq<UserShare>>, links: Option<seq<ShareLink>>)

  /**
   * The shares after `loadExistingShares`: when the answer carries data,
   * its list of users (missing reads as empty); otherwise the earlier list.
   */
  function ReloadedUsers(prev: seq<UserShare>, response: ApiResult<Option<SharesResponse>>): seq<UserShare>
  {
    if response.Ok? && response.value.Some? then
      match response.value.value.users case Some(u) => u case None => []
    else prev
  }

  /** The links after `loadExistingShares`, in the same way. */
  function ReloadedLinks(prev: seq<ShareLink>, response: ApiResult<Option<SharesResponse>>): seq<ShareLink>
  {
    if response.Ok? && response.value.Some? then
      match response.value.value.links case Some(l) => l case None => []
    else prev
  }

  /**
   * A reload replaces the lists rather than merging into them: with data,
   * what was listed before makes no difference, so reloading twice with the
   * same answer is reloading once; without data, nothing is lost.
   */
  lemma ReloadReplaces(users1: seq<UserShare>, users2: seq<UserShare>,
                       links1: seq<ShareLink>, links2: seq<ShareLink>,
                       response: ApiResult<Option<SharesResponse>>)
    ensures response.Ok? && response.value.Some? ==>
      ReloadedUsers(users1, response) == ReloadedUsers(users2, response) &&
      ReloadedLinks(links1, response) == ReloadedLinks(links2, response)
    ensures ReloadedUsers(ReloadedUsers(users1, response), response) == ReloadedUsers(users1, response)
    ensures ReloadedLinks(ReloadedLinks(links1, response), response) == ReloadedLinks(links1, response)
    ensures !(response.Ok? && response.value.Some?) ==>
      ReloadedUsers(users1, response) == users1 && ReloadedLinks(links1, response) == links1
  {
  }

  datatype Request =
    | FindUserByEmail(email: string)
    | ShareWithUsers(fileId: string, userIds: seq<string>, expiresInSeconds: Option<nat>)
    | GetShares(fileId: string)
    | CreateShareLink(fileId: string, expiresInSeconds: Option<nat>)
    | RevokeLinkRequest(token: string)
    | RevokeUserRequest(fileId: string, userId: string)

  /**
   * The requests `shareWithUser` issues for a non-blank address, in order:
   * the lookup; the share, when the lookup found someone; the reload of the
   * shares, when the share went through.
   */
  function ShareRequests(fileId: string, email: string, expiry: string, lookup: ApiResult<string>, share: ApiResult<()>): (r: seq<Request>)
    ensures 1 <= |r| <= 3 && r[0] == FindUserByEmail(email)
    ensures |r| >= 2 <==> lookup.Ok?
    ensures |r| == 3 <==> lookup.Ok? && share.Ok?
    ensures |r| >= 2 ==> r[1] == ShareWithUsers(fileId, [lookup.value], ExpiryNumber(expiry))
    ensures |r| == 3 ==> r[2] == GetShares(fileId)
  {
    if lookup.Fail? then [FindUserByEmail(email)]
    else if share.Fail? then [FindUserByEmail(email), ShareWithUsers(fileId, [lookup.value], ExpiryNumber(expiry))]
    else [FindUserByEmail(email), ShareWithUsers(fileId, [lookup.value], ExpiryNumber(expiry)), GetShares(fileId)]
  }

  /** `shareWithUser` goes all the way through: an address, a user found, the share accepted. */
  predicate ShareSucceeded(email: string, lookup: ApiResult<string>, share: ApiResult<()>)
  {
    !IsBlank(email) && lookup.Ok? && share.Ok?
  }

  /** The message `shareWithUser` ends with: the first check or call that fails, or the success. */
  function ShareNotice(email: string, lookup: ApiResult<string>, share: ApiResult<()>): (n: Notice)
    ensures n == BlankEmail <==> IsBlank(email)
    ensures n.SharedWith? <==> ShareSucceeded(email, lookup, share)
    ensures n.SharedWith? ==> n.email == email
    ensures n.LookupFailed? <==> !IsBlank(email) && lookup.Fail?
    ensures n.LookupFailed? ==> n.reason == LookupErrorText(lookup.error)
    ensures n.SharingFailed? <==> !IsBlank(email) && lookup.Ok? && share.Fail?
    ensures n.SharingFailed? ==> n.reason == LookupErrorText(share.error)
  {
    if IsBlank(email) then BlankEmail
    else if lookup.Fail? then LookupFailed(LookupErrorText(lookup.error))
    else if share.Fail? then SharingFailed(LookupErrorText(share.error))
    else SharedWith(email)
  }

  class Dialog {
    const fileId: string
    var userEmail: string
    var userExpiry: string
    var linkExpiry: string
    var message: Notice
    var loading: bool
    var sharedUsers: seq<UserShare>
    var generatedLinks: seq<ShareLink>

    constructor (fileId: string)
      ensures this.fileId == fileId
      ensures userEmail == [] && userExpiry == DefaultExpiry && linkExpiry == DefaultExpiry
      ensures message == NoNotice && !loading
      ensures sharedUsers == [] && generatedLinks == []
    {
      this.fileId := fileId;
      userEmail, userExpiry, linkExpiry := [], DefaultExpiry, DefaultExpiry;
      message, loading := NoNotice, false;
      sharedUsers, generatedLinks := [], [];
    }

    /** `loadExistingShares`: a usable answer replaces both lists; a failure changes nothing. */
    method LoadExistingShares(response: ApiResult<Option<SharesResponse>>)
      modifies this
      ensures sharedUsers == ReloadedUsers(old(sharedUsers), response)
      ensures generatedLinks == ReloadedLinks(old(generatedLinks), response)
      ensures userEmail == old(userEmail) && userExpiry == old(userExpiry) && linkExpiry == old(linkExpiry)
      ensures message == old(message) && loading == old(loading)
    {
      sharedUsers := ReloadedUsers(sharedUsers, response);
      generatedLinks := ReloadedLinks(generatedLinks, response);
    }

    /**
     * `shareWithUser`: a blank e-mail is refused before any request; then the
     * lookup, the share, and on success a reload of the shares, each step
     * stopping at the first failure with its message. The e-mail field is
     * cleared, and the lists reloaded, only on success.
     */
    method ShareWithUser(lookup: ApiResult<string>, share: ApiResult<()>, reload: ApiResult<Option<SharesResponse>>)
      returns (requests: seq<Request>)
      modifies this
      ensures requests == if IsBlank(old(userEmail)) then [] else ShareRequests(fileId, old(userEmail), old(userExpiry), lookup, share)
      ensures message == ShareNotice(old(userEmail), lookup, share)
      ensures userEmail == if ShareSucceeded(old(userEmail), lookup, share) then [] else old(userEmail)
      ensures sharedUsers == if ShareSucceeded(old(userEmail), lookup, share) then ReloadedUsers(old(sharedUsers), reload) else old(sharedUsers)
      ensures generatedLinks == if ShareSucceeded(old(userEmail), lookup, share) then ReloadedLinks(old(generatedLinks), reload) else old(generatedLinks)
      ensures loading == (IsBlank(old(userEmail)) && old(loading))
      ensures userExpiry == old(userExpiry) && linkExpiry == old(linkExpiry)
    {
      if IsBlank(userEmail) {
        message := BlankEmail;
        return [];
      }
      loading := true;
      var email := userEmail;
      requests := ShareRequests(fileId, email, userExpiry, lookup, share);
      message := ShareNotice(email, lookup, share);
      if lookup.Ok? && share.Ok? {
        userEmail := [];
        LoadExistingShares(reload);
      }
      loading := false;
    }

    /**
     * `createLink`: on success the new link goes in front of the earlier
     * ones, which follow unchanged.
     */
    method CreateLink(response: ApiResult<LinkResponse>, origin: string, createdAt: string)
      returns (requests: seq<Request>)
      modifies this
      ensures requests == [CreateShareLink(fileId, ExpiryNumber(old(linkExpiry)))]
      ensures response.Ok? ==>
        && generatedLinks == [NewLink(origin, response.value.link, response.value.expiresAt, createdAt)] + old(generatedLinks)
        && message == LinkCreated
      ensures response.Fail? ==>
        && generatedLinks == old(generatedLinks)
        && message == LinkFailed(ErrorText(response.error))
      ensures !loading && sharedUsers == old(sharedUsers)
      ensures userEmail == old(userEmail) && userExpiry == old(userExpiry) && linkExpiry == old(linkExpiry)
    {
      requests := [CreateShareLink(fileId, ExpiryNumber(linkExpiry))];
      if response.Ok? {
        generatedLinks := [NewLink(origin, response.value.link, response.value.expiresAt, createdAt)] + generatedLinks;
        message := LinkCreated;
      } else {
        message := LinkFailed(ErrorText(response.error));
      }
      loading := false;
    }

    /** `revokeLink`: nothing without the user's confirmation; the list shrinks only when the server agrees. */
    method RevokeLink(token: string, confirmed: bool, response: ApiResult<()>)
      returns (requests: seq<Request>)
      modifies this
      ensures !confirmed ==> requests == [] && generatedLinks == old(generatedLinks) && message == old(message)
      ensures confirmed ==> requests == [RevokeLinkRequest(token)]
      ensures confirmed && response.Ok? ==>
        generatedLinks == LinksWithout(old(generatedLinks), token) && message == LinkRevoked
      ensures confirmed && response.Fail? ==>
        generatedLinks == old(generatedLinks) && message == RevokeLinkFailed(ErrorText(response.error))
      ensures sharedUsers == old(sharedUsers) && loading == old(loading)
      ensures userEmail == old(userEmail) && userExpiry == old(userExpiry) && linkExpiry == old(linkExpiry)
    {
      if !confirmed {
        return [];
      }
      requests := [RevokeLinkRequest(token)];
      if response.Ok? {
        generatedLinks := LinksWithout(generatedLinks, token);
        message := LinkRevoked;
      } else {
        message := RevokeLinkFailed(ErrorText(response.error));
      }
    }

    /**
     * `revokeUserShare`, called with the grantee's id. The local list is
     * updated with the corrected filter on the grantee's id.
     */
    method RevokeUserShare(userId: string, confirmed: bool, response: ApiResult<()>)
      returns (requests: seq<Request>)
      modifies this
      ensures !confirmed ==> requests == [] && sharedUsers == old(sharedUsers) && message == old(message)
      ensures confirmed ==> requests == [RevokeUserRequest(fileId, userId)]
      ensures confirmed && response.Ok? ==>
        sharedUsers == SharesAfterRevoke(old(sharedUsers), userId) && message == AccessRevoked
      ensures confirmed && response.Fail? ==>
        sharedUsers == old(sharedUsers) && message == RevokeAccessFailed(ErrorText(response.error))
      ensures generatedLinks == old(generatedLinks) && loading == old(loading)
      ensures userEmail == old(userEmail) && userExpiry == old(userExpiry) && linkExpiry == old(linkExpiry)
    {
      if !confirmed {
        return [];
      }
      requests := [RevokeUserRequest(fileId, userId)];
      if response.Ok? {
        sharedUsers := SharesAfterRevoke(sharedUsers, userId);
        message := AccessRevoked;
      } else {
        message := RevokeAccessFailed(ErrorText(response.error));
      }
    }

    /** Picking a preset button: `setUserExpiry(option.value.toString())`. */
    method PickUserExpiry(option: ExpiryOption)
      modifies this
      ensures userExpiry == Decimal(option.seconds) && ExpiryNumber(userExpiry) == Some(option.seconds)
      ensures userEmail == old(userEmail) && linkExpiry == old(linkExpiry) && message == old(message)
      ensures sharedUsers == old(sharedUsers) && generatedLinks == old(generatedLinks) && loading == old(loading)
    {
      userExpiry := Decimal(option.seconds);
      PresetRoundTrip(option);
    }

    /** Picking a preset button for links: `setLinkExpiry(option.value.toString())`. */
    method PickLinkExpiry(option: ExpiryOption)
      modifies this
      ensures linkExpiry == Decimal(option.seconds) && ExpiryNumber(linkExpiry) == Some(option.seconds)
      ensures userEmail == old(userEmail) && userExpiry == old(userExpiry) && message == old(message)
      ensures sharedUsers == old(sharedUsers) && generatedLinks == old(generatedLinks) && loading == old(loading)
    {
      linkExpiry := Decimal(option.seconds);
      PresetRoundTrip(option);
    }
  }
}
