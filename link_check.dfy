/** The status check of one external link (`check_link_status`): a HEAD
    request, a GET when the HEAD answer is not trusted, and one retry over
    `https://` for an `http://` link whose check failed. The network is an
    input: `answer(k)` is what the k-th request issued during the check gets
    back. */
module LinkCheck {
  import opened Text

  /** What a request gets back: a status code, httpx's TooManyRedirects, or
      any other exception (time-out, connection or TLS error). */
  datatype Outcome = Answered(code: int) | TooManyRedirects | Failed

  datatype Verb = Head | Get
  datatype Request = Request(verb: Verb, url: string)

  /** The statuses after which a HEAD answer is double-checked with GET. */
  predicate DistrustedHeadStatus(code: int) {
    code == 403 || code == 404 || code == 405
  }

  /** One `try_link_check`: the status it returns, or None when it raises,
      and the requests it issued. */
  datatype Attempt = Attempt(status: Option<int>, requests: seq<Request>)

  /** `try_link_check(url)`, its requests answered from `answer(start)` on.
      A TooManyRedirects from the HEAD, or from the GET that follows a
      distrusted HEAD status (both sit in the same `try`), leads to one more
      GET, whose failure propagates. */
  function TryLinkCheck(url: string, answer: nat -> Outcome, start: nat): (a: Attempt)
    ensures 1 <= |a.requests| <= 3
    ensures a.requests[0] == Request(Head, url)
    ensures forall i :: 1 <= i < |a.requests| ==> a.requests[i] == Request(Get, url)
    ensures a.status.Some? ==> answer(start + |a.requests| - 1) == Answered(a.status.value)
    ensures a.status.None? ==> !answer(start + |a.requests| - 1).Answered?
    ensures |a.requests| == 1 ==> !answer(start).TooManyRedirects?
    ensures a.status.Some? && |a.requests| == 1 ==> !DistrustedHeadStatus(a.status.value)
    ensures |a.requests| >= 2 ==>
      answer(start) == TooManyRedirects || (answer(start).Answered? && DistrustedHeadStatus(answer(start).code))
    ensures |a.requests| == 3 ==> answer(start + 1) == TooManyRedirects
  {
    match answer(start)
    case Answered(code) =>
      if DistrustedHeadStatus(code) then
        match answer(start + 1)
        case Answered(c) => Attempt(Some(c), [Request(Head, url), Request(Get, url)])
        case TooManyRedirects => GetFallback(url, answer, start + 2, [Request(Head, url), Request(Get, url)])
        case Failed => Attempt(None, [Request(Head, url), Request(Get, url)])
      else Attempt(Some(code), [Request(Head, url)])
    case TooManyRedirects => GetFallback(url, answer, start + 1, [Request(Head, url)])
    case Failed => Attempt(None, [Request(Head, url)])
  }

  /** The GET issued after a TooManyRedirects; anything but an answer raises. */
  function GetFallback(url: string, answer: nat -> Outcome, k: nat, before: seq<Request>): (a: Attempt)
    ensures a.requests == before + [Request(Get, url)]
  {
    match answer(k)
    case Answered(c) => Attempt(Some(c), before + [Request(Get, url)])
    case _ => Attempt(None, before + [Request(Get, url)])
  }

  /** `link.replace('http://', 'https://', 1)` for a link that starts with
      `http://`: the first occurrence is the scheme itself. */
  function HttpsVariant(link: string): (r: string)
    requires StartsWith(link, "http://")
    ensures StartsWith(r, "https://") && r[8..] == link[7..]
  {
    "https://" + link[7..]
  }

  /** The reported pair, and every request issued for it. */
  datatype LinkResult = LinkResult(link: string, status: int, requests: seq<Request>)

  /** `check_link_status(link)`. */
  function CheckLinkStatus(link: string, answer: nat -> Outcome): (r: LinkResult)
    ensures r.link == link
    ensures |r.requests| >= 1 && r.requests[0] == Request(Head, link)
  {
    var first := TryLinkCheck(link, answer, 0);
    if first.status.Some? then LinkResult(link, first.status.value, first.requests)
    else if StartsWith(link, "http://") then
      var second := TryLinkCheck(HttpsVariant(link), answer, |first.requests|);
      LinkResult(link, if second.status.Some? then second.status.value else 0, first.requests + second.requests)
    else LinkResult(link, 0, first.requests)
  }

  /** The result is always reported under the link as given. The status is
      the answer to the last request issued, or 0 when that request raised.
      A second HEAD, over `https://`, is issued only for an `http://` link
      whose first check raised; otherwise every request targets the link. */
  lemma CheckLinkStatusOutcome(link: string, answer: nat -> Outcome)
    ensures var r := CheckLinkStatus(link, answer);
      var n := |r.requests|;
      1 <= n <= 6
      && (answer(n - 1).Answered? ==> r.status == answer(n - 1).code)
      && (!answer(n - 1).Answered? ==> r.status == 0)
      && (forall i :: 0 <= i < n && r.requests[i].url != link ==>
            StartsWith(link, "http://") && r.requests[i].url == HttpsVariant(link))
      && (n > 3 || (exists i :: 0 < i < n && r.requests[i].verb == Head) ==>
            StartsWith(link, "http://") && TryLinkCheck(link, answer, 0).status.None?)
  {
    var first := TryLinkCheck(link, answer, 0);
    var r := CheckLinkStatus(link, answer);
    if first.status.None? && StartsWith(link, "http://") {
      var second := TryLinkCheck(HttpsVariant(link), answer, |first.requests|);
      assert r.requests == first.requests + second.requests;
      assert |first.requests| + |second.requests| - 1 == |first.requests| + (|second.requests| - 1);
    }
  }

  /** The converse: an `http://` link whose first check raised is checked
      again over `https://`. The retry starts with a HEAD to the `https://`
      form right after the first check's requests, and every later request
      goes there too. */
  lemma HttpRetried(link: string, answer: nat -> Outcome)
    requires StartsWith(link, "http://")
    requires TryLinkCheck(link, answer, 0).status.None?
    ensures var m := |TryLinkCheck(link, answer, 0).requests|;
      var r := CheckLinkStatus(link, answer);
      m < |r.requests|
      && r.requests[..m] == TryLinkCheck(link, answer, 0).requests
      && r.requests[m] == Request(Head, HttpsVariant(link))
      && (forall i :: m <= i < |r.requests| ==> r.requests[i].url == HttpsVariant(link))
  {
    var first := TryLinkCheck(link, answer, 0);
    var second := TryLinkCheck(HttpsVariant(link), answer, |first.requests|);
    assert CheckLinkStatus(link, answer).requests == first.requests + second.requests;
  }

  /** A link whose HEAD is answered with a trusted status is settled by
      that one request. */
  lemma TrustedHeadSettles(link: string, answer: nat -> Outcome)
    requires answer(0).Answered? && !DistrustedHeadStatus(answer(0).code)
    ensures CheckLinkStatus(link, answer) == LinkResult(link, answer(0).code, [Request(Head, link)])
  {
  }

  /** A link that is not `http://` and whose check raises reports 0 after
      its own requests only. */
  lemma NoRetryWithoutHttp(link: string, answer: nat -> Outcome)
    requires !StartsWith(link, "http://")
    requires TryLinkCheck(link, answer, 0).status.None?
    ensures CheckLinkStatus(link, answer).status == 0
    ensures forall q :: q in CheckLinkStatus(link, answer).requests ==> q.url == link
  {
  }

  // ---------------------------------------------------------------------
  // Status classes (section 15 of RFC 9110).

  /** The rank used to order external links: 2xx, 3xx, 4xx, 5xx and above,
      then anything else (0 and other codes below 200). */
  function StatusRank(status: int): (rank: nat)
    ensures rank <= 4
    ensures rank == 4 <==> status < 200
    ensures rank < 3 ==> 200 + 100 * rank <= status < 300 + 100 * rank
    ensures rank == 3 <==> status >= 500
  {
    if 200 <= status < 300 then 0
    else if 300 <= status < 400 then 1
    else if 400 <= status < 500 then 2
    else if status >= 500 then 3
    else 4
  }

  /** A higher status class never ranks before a lower one. */
  lemma StatusRankMonotone(s1: int, s2: int)
    requires 200 <= s1 <= s2
    ensures StatusRank(s1) <= StatusRank(s2)
  {
  }
}
