/** Token pagination as the acquisition code drives it: ask for at most a page
    size and never more than is still missing, follow `nextPageToken`, and
    stop once enough items have arrived, a page comes back empty, or the
    response carries no (or an empty) token.

    The endpoint is a function from the request (page token, `maxResults`) to
    the page it returns; a run of the loop is recorded as the log of its
    calls, and `IsRun` says which logs the loop can produce. */
module Paging {
  import opened Prelude

  datatype Page<T> = Page(items: seq<T>, next: Option<string>)

  /** One request: the page token sent, the `maxResults` sent, the page got. */
  datatype Call<T> = Call(token: Option<string>, size: int, page: Page<T>)

  /** Python truthiness of `response.get("nextPageToken")`. */
  predicate HasToken(t: Option<string>) { t.Some? && t.value != "" }

  /** The loop goes on after this page (if it still needs items). */
  predicate Continues<T>(p: Page<T>) { |p.items| > 0 && HasToken(p.next) }

  /** Everything the calls returned, in order. */
  function Received<T>(log: seq<Call<T>>): seq<T> {
    if log == [] then [] else Received(log[..|log| - 1]) + log[|log| - 1].page.items
  }

  lemma ReceivedAppend<T>(log: seq<Call<T>>, c: Call<T>)
    ensures Received(log + [c]) == Received(log) + c.page.items
  {
    assert (log + [c])[..|log|] == log;
  }

  /** Call `k` is the request the loop makes after the calls before it: the
      first sends no token and each later one the token the previous page
      returned; it is made only while fewer than `target` items have arrived;
      it asks for `min(pageSize, target - received)`; and its page is what
      the endpoint answers. */
  ghost predicate WellFormedCall<T>(api: (Option<string>, int) -> Page<T>, target: int, pageSize: int,
                                    log: seq<Call<T>>, k: int)
    requires 0 <= k < |log|
  {
    var before := |Received(log[..k])|;
    && log[k].token == (if k == 0 then None else log[k - 1].page.next)
    && before < target
    && log[k].size == Min(pageSize, target - before)
    && log[k].page == api(log[k].token, log[k].size)
  }

  /** A complete run: every call well formed, every call but the last lets the
      loop go on, and the loop has stopped. */
  ghost predicate IsRun<T>(api: (Option<string>, int) -> Page<T>, target: int, pageSize: int, log: seq<Call<T>>) {
    && (forall k :: 0 <= k < |log| ==> WellFormedCall(api, target, pageSize, log, k))
    && (forall k :: 0 <= k < |log| - 1 ==> Continues(log[k].page))
    && (|Received(log)| >= target || (|log| > 0 && !Continues(log[|log| - 1].page)))
  }

  /** Appending a call leaves the earlier calls well formed. */
  lemma WellFormedExtend<T>(api: (Option<string>, int) -> Page<T>, target: int, pageSize: int,
                            log: seq<Call<T>>, c: Call<T>)
    requires forall k :: 0 <= k < |log| ==> WellFormedCall(api, target, pageSize, log, k)
    ensures forall k :: 0 <= k < |log| ==> WellFormedCall(api, target, pageSize, log + [c], k)
  {
    forall k | 0 <= k < |log| ensures WellFormedCall(api, target, pageSize, log + [c], k) {
      assert WellFormedCall(api, target, pageSize, log, k);
      assert (log + [c])[..k] == log[..k];
      if k > 0 {
        assert (log + [c])[k - 1] == log[k - 1];
      }
    }
  }

  /** The loop's next request, made while fewer than `target` items have
      arrived, extends a log of well-formed calls to a longer one. */
  lemma NextCall<T>(api: (Option<string>, int) -> Page<T>, target: int, pageSize: int,
                    log: seq<Call<T>>, token: Option<string>)
    requires forall k :: 0 <= k < |log| ==> WellFormedCall(api, target, pageSize, log, k)
    requires |Received(log)| < target
    requires token == if log == [] then None else log[|log| - 1].page.next
    ensures var size := Min(pageSize, target - |Received(log)|);
      var log' := log + [Call(token, size, api(token, size))];
      && (forall k :: 0 <= k < |log'| ==> WellFormedCall(api, target, pageSize, log', k))
      && Received(log') == Received(log) + api(token, size).items
  {
    var size := Min(pageSize, target - |Received(log)|);
    var c := Call(token, size, api(token, size));
    WellFormedExtend(api, target, pageSize, log, c);
    ReceivedAppend(log, c);
    assert (log + [c])[..|log|] == log;
    assert WellFormedCall(api, target, pageSize, log + [c], |log|);
  }

  /** Appending a call to calls that all let the loop go on: all but the
      last still do, and the last does when its page does. */
  lemma ContinuesExtend<T>(log: seq<Call<T>>, c: Call<T>)
    requires forall k :: 0 <= k < |log| ==> Continues(log[k].page)
    ensures forall k :: 0 <= k < |log| ==> Continues((log + [c])[k].page)
    ensures Continues(c.page) ==> forall k :: 0 <= k < |log| + 1 ==> Continues((log + [c])[k].page)
  {
  }

  /** Every call that lets the loop go on brings at least one item, so before
      call `k` at least `k` items have arrived. */
  lemma {:induction false} ReceivedAtLeast<T>(log: seq<Call<T>>, n: int)
    requires 0 <= n <= |log|
    requires forall k :: 0 <= k < n ==> Continues(log[k].page)
    ensures |Received(log[..n])| >= n
  {
    if n > 0 {
      ReceivedAtLeast(log, n - 1);
      assert log[..n][..n - 1] == log[..n - 1];
    }
  }

  /** A run makes no call when nothing is wanted, at least one call otherwise,
      never more calls than items wanted, and (for a positive page size) asks
      each time for between 1 and `pageSize` items. */
  lemma RunBounds<T>(api: (Option<string>, int) -> Page<T>, target: int, pageSize: int, log: seq<Call<T>>)
    requires IsRun(api, target, pageSize, log)
    ensures |log| == 0 <==> target <= 0
    ensures |log| <= Max(target, 0)
    ensures pageSize >= 1 ==> forall k :: 0 <= k < |log| ==> 1 <= log[k].size <= pageSize
  {
    if |log| > 0 {
      var n := |log| - 1;
      assert WellFormedCall(api, target, pageSize, log, n);
      ReceivedAtLeast(log, n);
    }
    forall k | 0 <= k < |log| ensures pageSize >= 1 ==> 1 <= log[k].size <= pageSize {
      assert WellFormedCall(api, target, pageSize, log, k);
    }
  }

  /** When the endpoint never sends more than it was asked for, a run never
      receives more than `target` items. */
  lemma {:induction false} NoOvershoot<T>(api: (Option<string>, int) -> Page<T>, target: int, pageSize: int,
                                          log: seq<Call<T>>, n: int)
    requires 0 <= n <= |log|
    requires forall k :: 0 <= k < |log| ==> WellFormedCall(api, target, pageSize, log, k)
    requires forall k :: 0 <= k < |log| ==> |log[k].page.items| <= log[k].size
    ensures |Received(log[..n])| <= Max(target, 0)
  {
    if n > 0 {
      NoOvershoot(api, target, pageSize, log, n - 1);
      assert WellFormedCall(api, target, pageSize, log, n - 1);
      assert log[..n][..n - 1] == log[..n - 1];
    }
  }

  /** With full pages (every page brings exactly the items asked for), after
      `n >= 1` calls `min(n * pageSize, target)` items have arrived. */
  lemma {:induction false} FullPagesReceived<T>(api: (Option<string>, int) -> Page<T>, target: int, pageSize: int,
                                                log: seq<Call<T>>, n: int)
    requires 1 <= n <= |log|
    requires forall k :: 0 <= k < |log| ==> WellFormedCall(api, target, pageSize, log, k)
    requires forall k :: 0 <= k < |log| ==> |log[k].page.items| == log[k].size
    ensures |Received(log[..n])| == Min(n * pageSize, target)
  {
    assert WellFormedCall(api, target, pageSize, log, n - 1);
    assert log[..n] == log[..n - 1] + [log[n - 1]];
    ReceivedAppend(log[..n - 1], log[n - 1]);
    if n > 1 {
      FullPagesReceived(api, target, pageSize, log, n - 1);
      assert (n - 1) * pageSize + pageSize == n * pageSize;
    } else {
      assert log[..0] == [];
    }
  }

  /** With full pages, a run makes at most ceil(target / pageSize) calls.
      Without them there is no such bound: short pages that still carry a
      token can cost one call per item. */
  lemma FullPagesCallBound<T>(api: (Option<string>, int) -> Page<T>, target: int, pageSize: int, log: seq<Call<T>>)
    requires IsRun(api, target, pageSize, log)
    requires pageSize >= 1
    requires forall k :: 0 <= k < |log| ==> |log[k].page.items| == log[k].size
    ensures |log| <= CeilDiv(Max(target, 0), pageSize)
  {
    if |log| > 0 {
      var n := |log| - 1;
      assert WellFormedCall(api, target, pageSize, log, n);
      if n >= 1 {
        FullPagesReceived(api, target, pageSize, log, n);
      } else {
        assert log[..0] == [];
      }
      CeilDivAbove(n, pageSize, target);
    }
  }

  lemma {:induction false} PrefixAgree<T>(api: (Option<string>, int) -> Page<T>, target: int, pageSize: int,
                                          log1: seq<Call<T>>, log2: seq<Call<T>>, n: int)
    requires 0 <= n <= |log1| && n <= |log2|
    requires forall k :: 0 <= k < |log1| ==> WellFormedCall(api, target, pageSize, log1, k)
    requires forall k :: 0 <= k < |log2| ==> WellFormedCall(api, target, pageSize, log2, k)
    ensures log1[..n] == log2[..n]
  {
    if n > 0 {
      PrefixAgree(api, target, pageSize, log1, log2, n - 1);
      assert WellFormedCall(api, target, pageSize, log1, n - 1);
      assert WellFormedCall(api, target, pageSize, log2, n - 1);
      assert log1[..n] == log1[..n - 1] + [log1[n - 1]];
      assert log2[..n] == log2[..n - 1] + [log2[n - 1]];
    }
  }

  /** A call is only made while fewer than `target` items have arrived. */
  lemma CalledWhileShort<T>(api: (Option<string>, int) -> Page<T>, target: int, pageSize: int,
                            log: seq<Call<T>>, n: int)
    requires forall k :: 0 <= k < |log| ==> WellFormedCall(api, target, pageSize, log, k)
    ensures 0 <= n < |log| ==> |Received(log[..n])| < target
  {
    if 0 <= n < |log| {
      assert WellFormedCall(api, target, pageSize, log, n);
    }
  }

  /** A run is never a proper prefix of another run. */
  lemma RunNotPrefix<T>(api: (Option<string>, int) -> Page<T>, target: int, pageSize: int,
                        log1: seq<Call<T>>, log2: seq<Call<T>>)
    requires IsRun(api, target, pageSize, log1) && IsRun(api, target, pageSize, log2)
    requires |log1| <= |log2| && log1 == log2[..|log1|]
    ensures |log1| == |log2|
  {
    CalledWhileShort(api, target, pageSize, log2, |log1|);
    if |log1| < |log2| {
      assert false;
    }
  }

  /** The endpoint's answers fix the run: the loop is deterministic, so
      `IsRun` describes exactly one call log. */
  lemma RunDeterministic<T>(api: (Option<string>, int) -> Page<T>, target: int, pageSize: int,
                            log1: seq<Call<T>>, log2: seq<Call<T>>)
    requires IsRun(api, target, pageSize, log1) && IsRun(api, target, pageSize, log2)
    ensures log1 == log2
  {
    var n := Min(|log1|, |log2|);
    PrefixAgree(api, target, pageSize, log1, log2, n);
    if |log1| <= |log2| {
      assert log1 == log1[..n];
      RunNotPrefix(api, target, pageSize, log1, log2);
      assert log2 == log2[..n];
    } else {
      assert log2 == log2[..n];
      RunNotPrefix(api, target, pageSize, log2, log1);
    }
  }
}
