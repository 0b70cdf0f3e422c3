/**
 * The Mailbox and Application classes: the per-account check of new mail
 * against the shared seen-set file, and the run over every configured account.
 */
module Controllers {
  import opened Wrappers
  import opened ByteString
  import opened IdList
  import opened SeenStore
  import opened Synchronizer
  import opened Headers

  /** One entry of the configuration's `mails` list. */
  datatype Account = Account(imapServer: string, login: string, password: string)

  /**
   * How the mail server of one account answers during a run: whether it accepts
   * the account's credentials, the data of its SEARCH ALL reply, and the message
   * stored under each number.
   */
  datatype Remote = Remote(authenticates: bool, searchResponse: seq<byte>, messages: map<int, Message>)

  /** The exceptions that escape a run and end it. */
  datatype Failure =
    | AuthenticationFailed(login: string)
    | MalformedListing(login: string)
    | FetchFailed(id: int)
    | BadHeader(id: int, error: HeaderError)

  /** What a run prints for one account: a Title/From table, or the no-new-mail notice. */
  datatype Report = NewMails(login: string, rows: seq<Header>) | NoNewMails(login: string)

  function ReportFor(login: string, rows: seq<Header>): (r: Report)
    ensures r.login == login
    ensures r.NewMails? <==> |rows| != 0
    ensures r.NewMails? ==> r.rows == rows
  {
    if |rows| != 0 then NewMails(login, rows) else NoNewMails(login)
  }

  /** `get_header(mail)`: fetch message `id` and read its title and sender. */
  function FetchHeader(remote: Remote, id: int): Result<Header, Failure>
  {
    if id !in remote.messages then Err(FetchFailed(id))
    else
      match GetHeader(remote.messages[id])
      case Ok(h) => Ok(h)
      case Err(e) => Err(BadHeader(id, e))
  }

  /** Fetch `k` is the first of `ids` to fail, and fails with `e`. */
  predicate FirstFailure(remote: Remote, ids: seq<int>, k: int, e: Failure) {
    && 0 <= k < |ids|
    && FetchHeader(remote, ids[k]) == Err(e)
    && forall i :: 0 <= i < k ==> FetchHeader(remote, ids[i]).Ok?
  }

  /**
   * The headers of the new mails, fetched in list order; the first fetch that
   * fails ends the whole sequence with its error.
   */
  function NewMailHeaders(remote: Remote, ids: seq<int>): Result<seq<Header>, Failure>
    decreases |ids|
  {
    if ids == [] then Ok([])
    else
      match NewMailHeaders(remote, ids[..|ids| - 1])
      case Err(e) => Err(e)
      case Ok(rows) =>
        match FetchHeader(remote, ids[|ids| - 1])
        case Err(e) => Err(e)
        case Ok(h) => Ok(rows + [h])
  }

  /**
   * The rows are produced exactly when every fetch succeeds, one per new mail in
   * order; otherwise the error is that of the first fetch to fail.
   */
  lemma {:induction false} NewMailHeadersSpec(remote: Remote, ids: seq<int>)
    ensures var r := NewMailHeaders(remote, ids);
      && (r.Ok? <==> forall i :: 0 <= i < |ids| ==> FetchHeader(remote, ids[i]).Ok?)
      && (r.Ok? ==> |r.value| == |ids| && forall i :: 0 <= i < |ids| ==> FetchHeader(remote, ids[i]) == Ok(r.value[i]))
      && (r.Err? ==> exists k :: FirstFailure(remote, ids, k, r.error))
    decreases |ids|
  {
    if ids != [] {
      var init := ids[..|ids| - 1];
      NewMailHeadersSpec(remote, init);
      assert forall i :: 0 <= i < |init| ==> init[i] == ids[i];
      match NewMailHeaders(remote, init)
      case Err(e) =>
        var k :| FirstFailure(remote, init, k, e);
        assert FirstFailure(remote, ids, k, e);
      case Ok(rows) =>
        match FetchHeader(remote, ids[|ids| - 1])
        case Err(e) =>
          assert FirstFailure(remote, ids, |ids| - 1, e);
        case Ok(h) =>
    }
  }

  /** Once a prefix of the fetches has failed, the rest are never made. */
  lemma {:induction false} NewMailHeadersHalt(remote: Remote, ids: seq<int>, k: nat)
    requires k <= |ids|
    requires NewMailHeaders(remote, ids[..k]).Err?
    ensures NewMailHeaders(remote, ids) == NewMailHeaders(remote, ids[..k])
    decreases |ids| - k
  {
    if k == |ids| {
      assert ids[..k] == ids;
    } else {
      var init := ids[..|ids| - 1];
      assert init[..k] == ids[..k];
      NewMailHeadersHalt(remote, init, k);
    }
  }

  /** The state a run threads from one account to the next. */
  datatype RunState = RunState(file: Option<Document>, reports: seq<Report>, failure: Option<Failure>)

  /**
   * One pass of the loop in `Application.run`: log in, check new mail (which may
   * write the file), fetch the headers of the new mails and report them. Any
   * exception ends the run; once it has ended, later accounts change nothing.
   */
  function Step(st: RunState, account: Account, remote: Remote): RunState {
    if st.failure.Some? then st
    else if !remote.authenticates then st.(failure := Some(AuthenticationFailed(account.login)))
    else
      match ParseIds(remote.searchResponse)
      case None => st.(failure := Some(MalformedListing(account.login)))
      case Some(ids) =>
        var out := Sync(st.file, account.login, ids);
        match NewMailHeaders(remote, out.delta)
        case Err(e) => RunState(out.file, st.reports, Some(e))
        case Ok(rows) => RunState(out.file, st.reports + [ReportFor(account.login, rows)], None)
  }

  /** A step that ends without an exception logged in, read the listing and added one report. */
  lemma StepCompleted(st: RunState, account: Account, remote: Remote)
    requires Step(st, account, remote).failure.None?
    ensures st.failure.None? && remote.authenticates && ParseIds(remote.searchResponse).Some?
    ensures var next := Step(st, account, remote);
      && |next.reports| == |st.reports| + 1
      && next.reports[..|st.reports|] == st.reports
      && next.reports[|st.reports|].login == account.login
  {
  }

  /** What a step that logged in and read the listing leaves in the file. */
  lemma StepFile(st: RunState, account: Account, remote: Remote)
    requires st.failure.None? && remote.authenticates && ParseIds(remote.searchResponse).Some?
    ensures Step(st, account, remote).file == Sync(st.file, account.login, ParseIds(remote.searchResponse).value).file
  {
  }

  /** The account logs in, its listing parses, and the file already holds every number listed. */
  predicate Quiet(file: Option<Document>, account: Account, remote: Remote) {
    && remote.authenticates
    && ParseIds(remote.searchResponse).Some?
    && Delta(ParseIds(remote.searchResponse).value, Entry(Loaded(file), account.login)) == []
  }

  /** A step whose listing holds nothing the file has not seen reports "no new mails" and writes nothing. */
  lemma StepQuiet(st: RunState, account: Account, remote: Remote)
    requires st.failure.None? && Quiet(st.file, account, remote)
    ensures Step(st, account, remote) == RunState(st.file, st.reports + [NoNewMails(account.login)], None)
  {
  }

  /** The run over the accounts in configuration order, each meeting its own remote answer. */
  function RunAll(file: Option<Document>, accounts: seq<Account>, remotes: seq<Remote>): RunState
    requires |remotes| == |accounts|
    decreases |accounts|
  {
    if accounts == [] then RunState(file, [], None)
    else
      var n := |accounts| - 1;
      Step(RunAll(file, accounts[..n], remotes[..n]), accounts[n], remotes[n])
  }

  /** The run over the first `k + 1` accounts is the run over the first `k`, followed by account `k`. */
  lemma RunAllSnoc(file: Option<Document>, accounts: seq<Account>, remotes: seq<Remote>, k: nat)
    requires |remotes| == |accounts| && k < |accounts|
    ensures RunAll(file, accounts[..k + 1], remotes[..k + 1])
         == Step(RunAll(file, accounts[..k], remotes[..k]), accounts[k], remotes[k])
  {
    var upto, answers := accounts[..k + 1], remotes[..k + 1];
    assert upto[..k] == accounts[..k] && answers[..k] == remotes[..k];
    assert upto[k] == accounts[k] && answers[k] == remotes[k];
  }

  /** Once an account has ended the run, no later account is processed. */
  lemma {:induction false} RunAllHalts(file: Option<Document>, accounts: seq<Account>, remotes: seq<Remote>, k: nat)
    requires |remotes| == |accounts| && k <= |accounts|
    requires RunAll(file, accounts[..k], remotes[..k]).failure.Some?
    ensures RunAll(file, accounts, remotes) == RunAll(file, accounts[..k], remotes[..k])
    decreases |accounts| - k
  {
    if k == |accounts| {
      assert accounts[..k] == accounts && remotes[..k] == remotes;
    } else {
      var n := |accounts| - 1;
      assert accounts[..n][..k] == accounts[..k] && remotes[..n][..k] == remotes[..k];
      RunAllHalts(file, accounts[..n], remotes[..n], k);
    }
  }

  /** A rejected login aborts the whole run: that account and every later one go unreported. */
  lemma AuthenticationAbortsRun(file: Option<Document>, accounts: seq<Account>, remotes: seq<Remote>, k: nat)
    requires |remotes| == |accounts| && k < |accounts|
    requires RunAll(file, accounts[..k], remotes[..k]).failure.None?
    requires !remotes[k].authenticates
    ensures var before := RunAll(file, accounts[..k], remotes[..k]);
      RunAll(file, accounts, remotes) == before.(failure := Some(AuthenticationFailed(accounts[k].login)))
  {
    assert accounts[..k + 1][..k] == accounts[..k] && remotes[..k + 1][..k] == remotes[..k];
    RunAllHalts(file, accounts, remotes, k + 1);
  }

  /** A run never touches the entry of a login that is not configured. */
  lemma {:induction false} RunAllFrame(file: Option<Document>, accounts: seq<Account>, remotes: seq<Remote>, login: string)
    requires |remotes| == |accounts|
    requires forall i :: 0 <= i < |accounts| ==> accounts[i].login != login
    ensures Entry(Loaded(RunAll(file, accounts, remotes).file), login) == Entry(Loaded(file), login)
    decreases |accounts|
  {
    if accounts != [] {
      var n := |accounts| - 1;
      RunAllFrame(file, accounts[..n], remotes[..n], login);
      var st := RunAll(file, accounts[..n], remotes[..n]);
      if st.failure.None? && remotes[n].authenticates && ParseIds(remotes[n].searchResponse).Some? {
        SyncFrame(st.file, accounts[n].login, ParseIds(remotes[n].searchResponse).value, login);
      }
    }
  }

  /** A run that ends without an exception printed one report per account, in configuration order. */
  lemma {:induction false} RunAllCompleted(file: Option<Document>, accounts: seq<Account>, remotes: seq<Remote>)
    requires |remotes| == |accounts|
    requires RunAll(file, accounts, remotes).failure.None?
    ensures var st := RunAll(file, accounts, remotes);
      |st.reports| == |accounts| && forall i :: 0 <= i < |accounts| ==> st.reports[i].login == accounts[i].login
    decreases |accounts|
  {
    if accounts != [] {
      var n := |accounts| - 1;
      var prev := RunAll(file, accounts[..n], remotes[..n]);
      assert RunAll(file, accounts, remotes) == Step(prev, accounts[n], remotes[n]);
      StepCompleted(prev, accounts[n], remotes[n]);
      RunAllCompleted(file, accounts[..n], remotes[..n]);
      var reports := RunAll(file, accounts, remotes).reports;
      forall i | 0 <= i < |accounts|
        ensures reports[i].login == accounts[i].login
      {
        if i < n {
          assert accounts[..n][i] == accounts[i];
          assert reports[i] == prev.reports[i];
        }
      }
    }
  }

  /** A run that ends without an exception has no exception after any prefix of the accounts either. */
  lemma RunAllPrefixCompleted(file: Option<Document>, accounts: seq<Account>, remotes: seq<Remote>, k: nat)
    requires |remotes| == |accounts| && k <= |accounts|
    requires RunAll(file, accounts, remotes).failure.None?
    ensures RunAll(file, accounts[..k], remotes[..k]).failure.None?
  {
    if RunAll(file, accounts[..k], remotes[..k]).failure.Some? {
      RunAllHalts(file, accounts, remotes, k);
      assert false;
    }
  }

  /** A run that ends without an exception logged in to every account and read every listing. */
  lemma RunAllCompletedAt(file: Option<Document>, accounts: seq<Account>, remotes: seq<Remote>, i: nat)
    requires |remotes| == |accounts| && i < |accounts|
    requires RunAll(file, accounts, remotes).failure.None?
    ensures remotes[i].authenticates && ParseIds(remotes[i].searchResponse).Some?
  {
    RunAllPrefixCompleted(file, accounts, remotes, i + 1);
    RunAllSnoc(file, accounts, remotes, i);
    StepCompleted(RunAll(file, accounts[..i], remotes[..i]), accounts[i], remotes[i]);
  }

  predicate DistinctLogins(accounts: seq<Account>) {
    forall i, j :: 0 <= i < j < |accounts| ==> accounts[i].login != accounts[j].login
  }

  /**
   * After a completed run with distinct logins, the entry of each account holds
   * every number of the listing that account's server gave.
   */
  lemma {:induction false} RunAllCoversAt(file: Option<Document>, accounts: seq<Account>, remotes: seq<Remote>, i: nat, x: int)
    requires |remotes| == |accounts| && i < |accounts| && DistinctLogins(accounts)
    requires RunAll(file, accounts, remotes).failure.None?
    requires ParseIds(remotes[i].searchResponse).Some? && x in ParseIds(remotes[i].searchResponse).value
    ensures x in Entry(Loaded(RunAll(file, accounts, remotes).file), accounts[i].login)
    decreases |accounts|
  {
    var n := |accounts| - 1;
    var prev := RunAll(file, accounts[..n], remotes[..n]);
    assert RunAll(file, accounts, remotes) == Step(prev, accounts[n], remotes[n]);
    StepCompleted(prev, accounts[n], remotes[n]);
    StepFile(prev, accounts[n], remotes[n]);
    var ids := ParseIds(remotes[n].searchResponse).value;
    if i == n {
      SyncCovers(prev.file, accounts[n].login, ids);
    } else {
      assert accounts[..n][i] == accounts[i] && remotes[..n][i] == remotes[i];
      assert DistinctLogins(accounts[..n]) by {
        forall p, q | 0 <= p < q < n ensures accounts[..n][p].login != accounts[..n][q].login {
          assert accounts[..n][p] == accounts[p] && accounts[..n][q] == accounts[q];
        }
      }
      RunAllCoversAt(file, accounts[..n], remotes[..n], i, x);
      SyncFrame(prev.file, accounts[n].login, ids, accounts[i].login);
    }
  }

  /** A run in which no account finds anything new reports "no new mails" for each of them and writes nothing. */
  lemma {:induction false} RunAllQuiet(file: Option<Document>, accounts: seq<Account>, remotes: seq<Remote>)
    requires |remotes| == |accounts|
    requires forall i :: 0 <= i < |accounts| ==> Quiet(file, accounts[i], remotes[i])
    ensures var st := RunAll(file, accounts, remotes);
      && st.file == file && st.failure.None? && |st.reports| == |accounts|
      && forall i :: 0 <= i < |accounts| ==> st.reports[i] == NoNewMails(accounts[i].login)
    decreases |accounts|
  {
    if accounts != [] {
      var n := |accounts| - 1;
      forall i | 0 <= i < n
        ensures Quiet(file, accounts[..n][i], remotes[..n][i])
      {
        assert accounts[..n][i] == accounts[i] && remotes[..n][i] == remotes[i];
      }
      RunAllQuiet(file, accounts[..n], remotes[..n]);
      StepQuiet(RunAll(file, accounts[..n], remotes[..n]), accounts[n], remotes[n]);
    }
  }

  /** Idempotence of a whole run: running twice in a row reports nothing new the second time. */
  lemma RunTwice(file: Option<Document>, accounts: seq<Account>, remotes: seq<Remote>)
    requires |remotes| == |accounts| && DistinctLogins(accounts)
    requires RunAll(file, accounts, remotes).failure.None?
    ensures var first := RunAll(file, accounts, remotes);
      var second := RunAll(first.file, accounts, remotes);
      && second.file == first.file && second.failure.None? && |second.reports| == |accounts|
      && forall i :: 0 <= i < |accounts| ==> second.reports[i] == NoNewMails(accounts[i].login)
  {
    var first := RunAll(file, accounts, remotes).file;
    forall i | 0 <= i < |accounts|
      ensures Quiet(first, accounts[i], remotes[i])
    {
      RunAllCompletedAt(file, accounts, remotes, i);
      var ids := ParseIds(remotes[i].searchResponse).value;
      forall x | x in ids
        ensures x in Entry(Loaded(first), accounts[i].login)
      {
        RunAllCoversAt(file, accounts, remotes, i, x);
      }
      DeltaCovered(ids, Entry(Loaded(first), accounts[i].login));
    }
    RunAllQuiet(first, accounts, remotes);
  }

  /** The loop of `Application.run` that fetches one header per new mail. */
  method CollectHeaders(remote: Remote, newMails: seq<int>) returns (mails: Result<seq<Header>, Failure>)
    ensures mails == NewMailHeaders(remote, newMails)
  {
    var rows: seq<Header> := [];
    var j := 0;
    while j < |newMails|
      invariant 0 <= j <= |newMails|
      invariant NewMailHeaders(remote, newMails[..j]) == Ok(rows)
    {
      var header := FetchHeader(remote, newMails[j]);
      assert newMails[..j + 1][..j] == newMails[..j];
      if header.Err? {
        NewMailHeadersHalt(remote, newMails, j + 1);
        return Err(header.error);
      }
      rows := rows + [header.value];
      j := j + 1;
    }
    assert newMails[..j] == newMails;
    mails := Ok(rows);
  }

  /** One configured mailbox; every Mailbox of a run shares the same seen-set file. */
  class Mailbox {
    const login: string
    const password: string
    const imapServer: string
    const jsonFile: Store
    var mailsIds: seq<int>

    constructor (login: string, password: string, imapServer: string, jsonFile: Store)
      ensures this.login == login && this.password == password && this.imapServer == imapServer
      ensures this.jsonFile == jsonFile && mailsIds == []
    {
      this.login := login;
      this.password := password;
      this.imapServer := imapServer;
      this.jsonFile := jsonFile;
      mailsIds := [];
    }

    /** The stored list of this login: empty when the file or the entry is absent. */
    method GetMailsIdsFromJson() returns (ids: seq<int>)
      ensures ids == Entry(jsonFile.Content(), login)
      ensures jsonFile.file.None? ==> ids == []
    {
      var content := jsonFile.Content();
      if login in content {
        ids := content[login];
      } else {
        ids := [];
      }
    }

    /** Read, replace this login's entry by `listing`, write the whole document back. */
    method SaveMailsIdToJson(listing: seq<int>)
      modifies jsonFile
      ensures jsonFile.file == Some(Put(old(jsonFile.Content()), login, listing))
    {
      var content := jsonFile.Content();
      content := content[login := listing];
      jsonFile.Dump(content);
    }

    /**
     * `check_new_mails`: the stored list goes into `mailsIds` first; then the
     * SEARCH data is parsed (None when `int()` rejects a token, before anything is
     * written); the numbers not stored are returned, and only when there are any
     * is this login's entry replaced by the whole listing.
     */
    method CheckNewMails(response: seq<byte>) returns (newMails: Option<seq<int>>)
      modifies this`mailsIds, jsonFile
      ensures mailsIds == Entry(old(jsonFile.Content()), login)
      ensures ParseIds(response).None? ==> newMails.None? && jsonFile.file == old(jsonFile.file)
      ensures ParseIds(response).Some? ==>
        var remote := ParseIds(response).value;
        var seen := Entry(old(jsonFile.Content()), login);
        && newMails.Some?
        && Elems(newMails.value) == Elems(remote) - Elems(seen)
        && NoDuplicates(newMails.value)
        && (newMails.value == [] ==> jsonFile.file == old(jsonFile.file))
        && (newMails.value != [] ==> jsonFile.file == Some(Put(old(jsonFile.Content()), login, remote)))
        && newMails.value == Sync(old(jsonFile.file), login, remote).delta
        && jsonFile.file == Sync(old(jsonFile.file), login, remote).file
    {
      mailsIds := GetMailsIdsFromJson();
      var newIds := ParseIds(response);
      if newIds.None? {
        return None;
      }
      var delta := Delta(newIds.value, mailsIds);
      if |delta| != 0 {
        SaveMailsIdToJson(newIds.value);
      }
      newMails := Some(delta);
    }
  }

  /** The application: its configured accounts and the seen-set file they share. */
  class Application {
    const mailList: seq<Account>
    const store: Store

    constructor (mailList: seq<Account>, store: Store)
      ensures this.mailList == mailList && this.store == store
    {
      this.mailList := mailList;
      this.store := store;
    }

    /**
     * One pass of the loop in `run`, for an account met while no exception has
     * been raised: log in, check new mail, fetch the header of each new mail, and
     * add the account's report.
     */
    method CheckAccount(email: Account, remote: Remote, reports: seq<Report>) returns (reports': seq<Report>, failure: Option<Failure>)
      modifies store
      ensures RunState(store.file, reports', failure) == Step(RunState(old(store.file), reports, None), email, remote)
    {
      reports', failure := reports, None;
      var mailbox := new Mailbox(email.login, email.password, email.imapServer, store);
      if !remote.authenticates {
        failure := Some(AuthenticationFailed(email.login));
        return;
      }
      var newMails := mailbox.CheckNewMails(remote.searchResponse);
      if newMails.None? {
        failure := Some(MalformedListing(mailbox.login));
        return;
      }
      var mails := CollectHeaders(remote, newMails.value);
      match mails
      case Err(e) =>
        failure := Some(e);
      case Ok(rows) =>
        reports' := reports + [ReportFor(mailbox.login, rows)];
    }

    /**
     * `run`: the accounts in order, each checked against its own remote answer;
     * returns what is printed and the exception that ended the run, if any.
     */
    method Run(remotes: seq<Remote>) returns (reports: seq<Report>, failure: Option<Failure>)
      requires |remotes| == |mailList|
      modifies store
      ensures RunState(store.file, reports, failure) == RunAll(old(store.file), mailList, remotes)
    {
      reports, failure := [], None;
      var i := 0;
      while i < |mailList| && failure.None?
        invariant 0 <= i <= |mailList|
        invariant RunState(store.file, reports, failure) == RunAll(old(store.file), mailList[..i], remotes[..i])
      {
        reports, failure := CheckAccount(mailList[i], remotes[i], reports);
        RunAllSnoc(old(store.file), mailList, remotes, i);
        i := i + 1;
      }
      if failure.Some? {
        RunAllHalts(old(store.file), mailList, remotes, i);
      } else {
        assert mailList[..i] == mailList && remotes[..i] == remotes;
      }
    }
  }
}
