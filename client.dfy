/**
 * The remote store client and the in-memory record list (app.js
 * `fetchWithFallback`, `fetchInvestments`, `addInvestment`,
 * `updateInvestment`, `deleteInvestment` and the click and submit handlers).
 *
 * The network is a caller-supplied function giving the reply each host would
 * send; a body that `res.json()` reads is passed in as well, `None` when it
 * does not parse.
 */
module Client {
  import opened Wrappers
  import opened Lists
  import opened Investments
  import opened Forms

  /** `API_BASES`: the configured hosts, in the order they are tried. */
  const ApiBases: seq<string> := ["http://localhost:3000", "http://localhost:3001"]

  /** What `fetch` gives for one host: a response with a status, or a rejection. */
  datatype Reply = Response(status: int) | Unreachable

  /** `res.ok`: a status in the 2xx range. */
  predicate IsOk(r: Reply)
  {
    r.Response? && 200 <= r.status <= 299
  }

  /** The error a failed operation raises. */
  datatype ApiError =
    | HttpError(status: int)  // `API error: ${res.status}`
    | NetworkError            // `fetch` itself rejected
    | RequestFailed           // `API request failed`: no host was tried
    | BadJson                 // `res.json()` rejected

  /** The error `fetchWithFallback` records for a failed attempt. */
  function AttemptError(r: Reply): ApiError
    requires !IsOk(r)
  {
    if r.Response? then HttpError(r.status) else NetworkError
  }

  /** The callback `h => h !== b` that drops the remembered host from the configured ones. */
  function NotEqual(b: string): string -> bool
  {
    x => x != b
  }

  /**
   * The hosts `fetchWithFallback` tries: a remembered (non-empty) host first,
   * then the configured hosts other than it, in order; with nothing remembered,
   * the configured hosts.
   */
  function CandidateHosts(bases: seq<string>, remembered: Option<string>): (r: seq<string>)
    ensures bases != [] ==> r != []
    ensures |r| <= |bases| + 1
    ensures forall h :: h in r ==> h in bases || Some(h) == remembered
  {
    if remembered.Some? && remembered.value != "" then [remembered.value] + Keep(bases, NotEqual(remembered.value))
    else bases
  }

  /** The hosts one call tries, given the remembered host; there is always at least one. */
  function Candidates(apiBase: Option<string>): (r: seq<string>)
    ensures r != []
  {
    CandidateHosts(ApiBases, apiBase)
  }

  /** The candidate list puts the remembered host first, keeps every configured host, and repeats none. */
  lemma CandidateHostsSpec(bases: seq<string>, remembered: Option<string>)
    requires Distinct(bases)
    ensures var c := CandidateHosts(bases, remembered);
      && Distinct(c)
      && (forall h :: h in bases ==> h in c)
      && (remembered.Some? && remembered.value != "" ==>
            c[0] == remembered.value && IsSubsequence(c[1..], bases) && forall h :: h in c ==> h in bases || h == remembered.value)
      && (remembered.None? || remembered.value == "" ==> c == bases)
  {
    if remembered.Some? && remembered.value != "" {
      var b := remembered.value;
      var c := CandidateHosts(bases, remembered);
      KeepDistinct(bases, NotEqual(b));
      KeepIsSubsequence(bases, NotEqual(b));
      assert c[1..] == Keep(bases, NotEqual(b));
      forall h | h in bases ensures h in c {
        KeepMembers(bases, NotEqual(b), h);
      }
      assert b !in c[1..];
      assert forall j :: 0 < j < |c| ==> c[j] in c[1..];
    }
  }

  /**
   * The outcome of trying `hosts` in order: the first host whose reply is ok,
   * or else the error of the last attempt (`lastErr` if there is none).
   */
  function Fallback(hosts: seq<string>, reply: string -> Reply, lastErr: ApiError): (r: Result<string, ApiError>)
    ensures r.Success? ==> r.value in hosts && IsOk(reply(r.value))
    ensures r.Failure? ==> r.error == lastErr || r.error.HttpError? || r.error.NetworkError?
  {
    if hosts == [] then Failure(lastErr)
    else if IsOk(reply(hosts[0])) then Success(hosts[0])
    else Fallback(hosts[1..], reply, AttemptError(reply(hosts[0])))
  }

  /** The fallback succeeds with the first ok host, and fails only when no host is ok. */
  lemma {:induction false} FallbackSpec(hosts: seq<string>, reply: string -> Reply, lastErr: ApiError)
    ensures var r := Fallback(hosts, reply, lastErr);
      && (r.Success? ==> exists i :: 0 <= i < |hosts| && hosts[i] == r.value && IsOk(reply(hosts[i]))
                                      && forall j :: 0 <= j < i ==> !IsOk(reply(hosts[j])))
      && (r.Failure? <==> forall h :: h in hosts ==> !IsOk(reply(h)))
      && (r.Failure? && hosts != [] ==> r.error == AttemptError(reply(hosts[|hosts| - 1])))
      && (r.Failure? && hosts == [] ==> r.error == lastErr)
  {
    if hosts != [] && !IsOk(reply(hosts[0])) {
      var rest := hosts[1..];
      FallbackSpec(rest, reply, AttemptError(reply(hosts[0])));
      var r := Fallback(hosts, reply, lastErr);
      if r.Success? {
        var i :| 0 <= i < |rest| && rest[i] == r.value && IsOk(reply(rest[i]))
                 && forall j :: 0 <= j < i ==> !IsOk(reply(rest[j]));
        assert hosts[i + 1] == r.value;
        assert forall j :: 0 <= j < i + 1 ==> !IsOk(reply(hosts[j])) by {
          forall j | 0 <= j < i + 1 ensures !IsOk(reply(hosts[j])) {
            if j > 0 { assert hosts[j] == rest[j - 1]; }
          }
        }
      }
      assert forall h :: h in hosts <==> h == hosts[0] || h in rest;
    }
  }

  /** The hosts `fetchWithFallback` contacts: every host up to and including the first ok one. */
  function TriedHosts(hosts: seq<string>, reply: string -> Reply): (r: seq<string>)
    ensures hosts != [] ==> r != []
  {
    if hosts == [] then []
    else if IsOk(reply(hosts[0])) then [hosts[0]]
    else [hosts[0]] + TriedHosts(hosts[1..], reply)
  }

  /** The call stops at the host it succeeds with, and contacts every host when it fails. */
  lemma {:induction false} TriedHostsSpec(hosts: seq<string>, reply: string -> Reply, lastErr: ApiError)
    ensures var r, t := Fallback(hosts, reply, lastErr), TriedHosts(hosts, reply);
      && t <= hosts
      && (r.Success? ==> t != [] && t[|t| - 1] == r.value && forall j :: 0 <= j < |t| - 1 ==> !IsOk(reply(t[j])))
      && (r.Failure? ==> t == hosts)
  {
    if hosts != [] && !IsOk(reply(hosts[0])) {
      TriedHostsSpec(hosts[1..], reply, AttemptError(reply(hosts[0])));
      var t := TriedHosts(hosts, reply);
      var rest := TriedHosts(hosts[1..], reply);
      assert forall j :: 0 < j < |t| ==> t[j] == rest[j - 1];
    }
  }

  /** The remembered host after a call: the host that answered, or the old one when every host failed. */
  function Remember(apiBase: Option<string>, r: Result<string, ApiError>): Option<string>
  {
    if r.Success? then Some(r.value) else apiBase
  }

  /** What a call that reads the JSON body gives: the store's error, a parse error, or the parsed body. */
  function ReadBody<T>(r: Result<string, ApiError>, body: Option<T>): Result<T, ApiError>
  {
    if r.Failure? then Failure(r.error)
    else if body.None? then Failure(BadJson)
    else Success(body.value)
  }

  /**
   * With nothing remembered, the first configured host down and the second up,
   * the call succeeds on the second, which then leads the next call's list.
   */
  lemma FallbackToSecondHost(reply: string -> Reply)
    requires !IsOk(reply(ApiBases[0])) && IsOk(reply(ApiBases[1]))
    ensures Fallback(Candidates(None), reply, RequestFailed) == Success(ApiBases[1])
    ensures Candidates(Some(ApiBases[1])) == [ApiBases[1], ApiBases[0]]
  {
    assert ApiBases[1..][1..] == [];
  }

  /** The first index whose record has `id`, or -1 (`findIndex`). */
  function FirstIndex(list: seq<Investment>, id: int): (r: int)
    ensures -1 <= r < |list|
    ensures r >= 0 ==> list[r].id == id && forall j :: 0 <= j < r ==> list[j].id != id
    ensures r == -1 ==> forall j :: 0 <= j < |list| ==> list[j].id != id
  {
    if list == [] then -1
    else if list[0].id == id then 0
    else
      var r := FirstIndex(list[1..], id);
      if r == -1 then -1 else r + 1
  }

  /** `investments.findIndex((i) => i.id === id)`. */
  method FindIndex(list: seq<Investment>, id: int) returns (idx: int)
    ensures -1 <= idx < |list|
    ensures idx >= 0 ==> list[idx].id == id && forall j :: 0 <= j < idx ==> list[j].id != id
    ensures idx == -1 ==> forall j :: 0 <= j < |list| ==> list[j].id != id
    ensures idx == FirstIndex(list, id)
  {
    var i := 0;
    while i < |list|
      invariant 0 <= i <= |list|
      invariant forall j :: 0 <= j < i ==> list[j].id != id
    {
      if list[i].id == id {
        return i;
      }
      i := i + 1;
    }
    return -1;
  }

  /** The list after `updateInvestment` succeeds: the first record with `id` replaced, if any. */
  function ReplaceFirst(list: seq<Investment>, id: int, updated: Investment): (r: seq<Investment>)
    ensures |r| == |list|
    ensures forall j :: 0 <= j < |list| && r[j] != list[j] ==> r[j] == updated && list[j].id == id
  {
    var idx := FirstIndex(list, id);
    if idx >= 0 then list[idx := updated] else list
  }

  /** Only the first record with the id changes; later duplicates and the length are kept. */
  lemma ReplaceFirstSpec(list: seq<Investment>, id: int, updated: Investment)
    ensures var r := ReplaceFirst(list, id, updated);
      && |r| == |list|
      && (forall j :: 0 <= j < |list| && list[j].id != id ==> r[j] == list[j])
      && (forall j, k :: 0 <= j < k < |list| && list[j].id == id ==> r[k] == list[k])
      && (FirstIndex(list, id) >= 0 ==> r[FirstIndex(list, id)] == updated)
      && ((exists j :: 0 <= j < |list| && list[j].id == id) ==> FirstIndex(list, id) >= 0)
      && ((forall j :: 0 <= j < |list| ==> list[j].id != id) ==> r == list)
  {
    var idx := FirstIndex(list, id);
    var r := ReplaceFirst(list, id, updated);
    if idx >= 0 {
      assert r[idx] == updated;
      forall j, k | 0 <= j < k < |list| && list[j].id == id ensures r[k] == list[k] {
        assert idx <= j;
      }
    }
  }

  /** The callback `(i) => i.id !== id`. */
  function OtherId(id: int): Investment -> bool
  {
    (inv: Investment) => inv.id != id
  }

  /** The list after `deleteInvestment` succeeds: every record with `id` removed. */
  function RemoveId(list: seq<Investment>, id: int): (r: seq<Investment>)
    ensures |r| <= |list|
    ensures forall inv :: inv in r ==> inv in list && inv.id != id
  {
    Keep(list, OtherId(id))
  }

  /** Delete keeps every copy of a record with another id, and no copy of one with the id. */
  lemma {:induction false} RemoveIdCounts(list: seq<Investment>, id: int)
    ensures forall inv :: multiset(RemoveId(list, id))[inv] == (if inv.id != id then multiset(list)[inv] else 0)
  {
    if list != [] {
      RemoveIdCounts(list[1..], id);
      assert list == [list[0]] + list[1..];
    }
  }

  /**
   * Delete removes every record with the id and keeps the others, in order,
   * each as many times as it occurs in the list.
   */
  lemma RemoveIdSpec(list: seq<Investment>, id: int)
    ensures IsSubsequence(RemoveId(list, id), list)
    ensures forall inv :: inv in RemoveId(list, id) <==> inv in list && inv.id != id
    ensures forall inv :: multiset(RemoveId(list, id))[inv] == (if inv.id != id then multiset(list)[inv] else 0)
  {
    RemoveIdCounts(list, id);
    KeepIsSubsequence(list, OtherId(id));
    forall inv ensures inv in RemoveId(list, id) <==> inv in list && inv.id != id {
      KeepMembers(list, OtherId(id), inv);
    }
  }

  /**
   * With a duplicated id, update and delete disagree: update changes only the
   * first copy, delete removes both.
   */
  lemma DuplicateIdAsymmetry(a: Investment, b: Investment, updated: Investment)
    requires a.id == b.id
    ensures ReplaceFirst([a, b], a.id, updated) == [updated, b]
    ensures RemoveId([a, b], a.id) == []
  {
    assert [a, b][1..] == [b];
    KeepNone([a, b], OtherId(a.id));
  }

  /** The buttons of a table row. */
  datatype Button = DeleteButton | EditButton | SaveButton | CancelButton

  /** An operation-level error as the user sees it in an `alert`. */
  datatype AppError = Validation(message: string) | Api(error: ApiError)

  /** What a handler did, apart from the list changes its method states. */
  datatype Outcome =
    | Refreshed        // the mutation succeeded and the view was refreshed
    | Alerted(error: AppError)
    | EditRowShown     // the row was switched to edit mode
    | NothingDone      // declined confirmation, or cancel

  /** What a handler shows once its store call has settled: a refresh, or an alert with the error. */
  function Report<T>(r: Result<T, ApiError>): Outcome
  {
    if r.Success? then Refreshed else Alerted(Api(r.error))
  }

  /** The dashboard's module-level state. */
  class App {
    /** The remembered host (`apiBase`), persisted in local storage. */
    var apiBase: Option<string>
    /** The master list (`investments`). */
    var investments: seq<Investment>
    /** The error of the last failed load (`lastApiError`). */
    var lastApiError: Option<ApiError>

    /** Start-up: `localStorage.getItem('apiBase') || null`; an empty string counts as nothing. */
    constructor (stored: Option<string>)
      ensures apiBase == (if stored == Some("") then None else stored)
      ensures investments == [] && lastApiError == None
    {
      apiBase := if stored == Some("") then None else stored;
      investments := [];
      lastApiError := None;
    }

    /**
     * `fetchWithFallback`: tries the candidate hosts in order, stops at the
     * first ok reply and remembers that host; when all fail, raises the last
     * error and leaves the remembered host alone. `tried` lists the hosts
     * contacted, in order.
     */
    method FetchWithFallback(reply: string -> Reply) returns (res: Result<string, ApiError>, tried: seq<string>)
      modifies this`apiBase
      ensures res == Fallback(Candidates(old(apiBase)), reply, RequestFailed)
      ensures tried == TriedHosts(Candidates(old(apiBase)), reply) && tried != []
      ensures apiBase == Remember(old(apiBase), res)
    {
      var bases := Candidates(apiBase);
      var lastErr := RequestFailed;
      tried := [];
      var rest := bases;
      while rest != []
        invariant TriedHosts(bases, reply) == tried + TriedHosts(rest, reply)
        invariant Fallback(rest, reply, lastErr) == Fallback(bases, reply, RequestFailed)
        invariant apiBase == old(apiBase)
      {
        var base := rest[0];
        var r := reply(base);
        if IsOk(r) {
          apiBase := Some(base);
          return Success(base), tried + [base];
        }
        assert tried + ([base] + TriedHosts(rest[1..], reply)) == (tried + [base]) + TriedHosts(rest[1..], reply);
        tried := tried + [base];
        lastErr := AttemptError(r);
        rest := rest[1..];
      }
      assert tried + [] == tried;
      res := Failure(lastErr);
    }

    /**
     * `fetchInvestments`: on success the list becomes what the store returned
     * and the load error is cleared; on failure the error is kept and the list
     * is left as it was.
     */
    method FetchInvestments(reply: string -> Reply, body: Option<seq<Investment>>) returns (tried: seq<string>)
      modifies this
      ensures var f := Fallback(Candidates(old(apiBase)), reply, RequestFailed);
        && tried == TriedHosts(Candidates(old(apiBase)), reply)
        && apiBase == Remember(old(apiBase), f)
        && (ReadBody(f, body).Success? ==> investments == body.value && lastApiError == None)
        && (ReadBody(f, body).Failure? ==> investments == old(investments) && lastApiError == Some(ReadBody(f, body).error))
    {
      var res;
      res, tried := FetchWithFallback(reply);
      if res.Failure? {
        lastApiError := Some(res.error);
      } else if body.None? {
        lastApiError := Some(BadJson);
      } else {
        investments := body.value;
        lastApiError := None;
      }
    }

    /**
     * `addInvestment`: posts the coerced payload and, once the store answers,
     * appends the record it returned; on failure the list is unchanged.
     */
    method AddInvestment(data: Fields, reply: string -> Reply, body: Option<Investment>)
      returns (res: Result<Investment, ApiError>, payload: Draft, tried: seq<string>)
      modifies this`apiBase, this`investments
      ensures payload == CreatePayload(data)
      ensures var f := Fallback(Candidates(old(apiBase)), reply, RequestFailed);
        && res == ReadBody(f, body)
        && tried == TriedHosts(Candidates(old(apiBase)), reply) && tried != []
        && apiBase == Remember(old(apiBase), f)
      ensures res.Success? ==> investments == old(investments) + [res.value]
      ensures res.Failure? ==> investments == old(investments)
    {
      payload := CreatePayload(data);
      var r;
      r, tried := FetchWithFallback(reply);
      if r.Failure? {
        return Failure(r.error), payload, tried;
      }
      if body.None? {
        return Failure(BadJson), payload, tried;
      }
      var created := body.value;
      investments := investments + [created];
      res := Success(created);
    }

    /**
     * `updateInvestment`: sends the patch and, once the store answers, puts
     * the returned record at the first index with the id (if there is one).
     * `sent` is the request body.
     */
    method UpdateInvestment(id: int, patch: Draft, reply: string -> Reply, body: Option<Investment>)
      returns (res: Result<Investment, ApiError>, sent: Draft, tried: seq<string>)
      modifies this`apiBase, this`investments
      ensures sent == patch
      ensures var f := Fallback(Candidates(old(apiBase)), reply, RequestFailed);
        && res == ReadBody(f, body)
        && tried == TriedHosts(Candidates(old(apiBase)), reply) && tried != []
        && apiBase == Remember(old(apiBase), f)
      ensures res.Success? ==> investments == ReplaceFirst(old(investments), id, res.value)
      ensures res.Failure? ==> investments == old(investments)
    {
      sent := patch;
      var r;
      r, tried := FetchWithFallback(reply);
      if r.Failure? {
        return Failure(r.error), sent, tried;
      }
      if body.None? {
        return Failure(BadJson), sent, tried;
      }
      var updated := body.value;
      var idx := FindIndex(investments, id);
      if idx >= 0 {
        investments := investments[idx := updated];
      }
      res := Success(updated);
    }

    /** `deleteInvestment`: once the store answers, drops every record with the id. */
    method DeleteInvestment(id: int, reply: string -> Reply) returns (res: Result<(), ApiError>, tried: seq<string>)
      modifies this`apiBase, this`investments
      ensures var f := Fallback(Candidates(old(apiBase)), reply, RequestFailed);
        && res == f.MapSuccess()
        && tried == TriedHosts(Candidates(old(apiBase)), reply) && tried != []
        && apiBase == Remember(old(apiBase), f)
      ensures res.Success? ==> investments == RemoveId(old(investments), id)
      ensures res.Failure? ==> investments == old(investments)
    {
      var r;
      r, tried := FetchWithFallback(reply);
      if r.Failure? {
        return Failure(r.error), tried;
      }
      investments := RemoveId(investments, id);
      res := Success(());
    }

    /**
     * The table's click handler for one row. Delete asks for confirmation
     * first; Save validates the row before any request; Edit and Cancel only
     * redraw the row. No request is sent and nothing changes unless the
     * confirmed delete or the validated save reaches the store. `sent` is the
     * body of the PATCH request, when one is sent.
     */
    method HandleRowClick(button: Button, id: int, confirmed: bool, row: Fields,
                          reply: string -> Reply, body: Option<Investment>)
      returns (outcome: Outcome, sent: Option<Draft>, tried: seq<string>)
      modifies this`apiBase, this`investments
      ensures sent == (if button == SaveButton && CollectRowPatch(row).Success? then Some(CollectRowPatch(row).value) else None)
      ensures (button == DeleteButton && !confirmed) || button == EditButton || button == CancelButton ==>
        tried == [] && investments == old(investments) && apiBase == old(apiBase)
      ensures button == EditButton ==> outcome == EditRowShown
      ensures button == CancelButton || (button == DeleteButton && !confirmed) ==> outcome == NothingDone
      ensures button == SaveButton && CollectRowPatch(row).Failure? ==>
        && tried == [] && investments == old(investments) && apiBase == old(apiBase)
        && outcome == Alerted(Validation(RowRequiredMessage))
      ensures (button == DeleteButton && confirmed) || (button == SaveButton && CollectRowPatch(row).Success?) ==>
        var f := Fallback(Candidates(old(apiBase)), reply, RequestFailed);
        && tried == TriedHosts(Candidates(old(apiBase)), reply) && tried != []
        && apiBase == Remember(old(apiBase), f)
      ensures button == DeleteButton && confirmed ==>
        var f := Fallback(Candidates(old(apiBase)), reply, RequestFailed);
        && outcome == Report(f)
        && investments == (if f.Success? then RemoveId(old(investments), id) else old(investments))
      ensures button == SaveButton && CollectRowPatch(row).Success? ==>
        var res := ReadBody(Fallback(Candidates(old(apiBase)), reply, RequestFailed), body);
        && outcome == Report(res)
        && investments == (if res.Success? then ReplaceFirst(old(investments), id, res.value) else old(investments))
    {
      tried := [];
      sent := None;
      outcome := NothingDone;
      match button {
        case DeleteButton =>
          if confirmed {
            var r;
            r, tried := DeleteInvestment(id, reply);
            outcome := Report(r);
          }
        case EditButton =>
          outcome := EditRowShown;
        case SaveButton =>
          var patch := CollectRowPatch(row);
          if patch.Failure? {
            outcome := Alerted(Validation(patch.error));
          } else {
            var r, patchSent;
            r, patchSent, tried := UpdateInvestment(id, patch.value, reply, body);
            sent := Some(patchSent);
            outcome := Report(r);
          }
        case CancelButton =>
      }
    }

    /**
     * The create form's submit handler: a missing name, category or date stops
     * it before any request; otherwise the record is added. `sent` is the
     * body of the POST request, when one is sent.
     */
    method SubmitCreateForm(data: Fields, reply: string -> Reply, body: Option<Investment>)
      returns (outcome: Outcome, sent: Option<Draft>, tried: seq<string>)
      modifies this`apiBase, this`investments
      ensures sent == (if CreateFieldsFilled(data) then Some(CreatePayload(data)) else None)
      ensures !CreateFieldsFilled(data) ==>
        && tried == [] && investments == old(investments) && apiBase == old(apiBase)
        && outcome == Alerted(Validation(CreateRequiredMessage))
      ensures CreateFieldsFilled(data) ==>
        var f := Fallback(Candidates(old(apiBase)), reply, RequestFailed);
        var res := ReadBody(f, body);
        && tried == TriedHosts(Candidates(old(apiBase)), reply) && tried != []
        && apiBase == Remember(old(apiBase), f)
        && outcome == Report(res)
        && investments == (if res.Success? then old(investments) + [res.value] else old(investments))
    {
      if !CreateFieldsFilled(data) {
        return Alerted(Validation(CreateRequiredMessage)), None, [];
      }
      var r, payload;
      r, payload, tried := AddInvestment(data, reply, body);
      sent := Some(payload);
      outcome := Report(r);
    }
  }
}
