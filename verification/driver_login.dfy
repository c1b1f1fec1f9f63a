/**
 * Driver sign-in: the built-in table of driver accounts, one per route, and the
 * credential check that picks the account a driver logs in as.
 */
module DriverLogin {
  import opened Text
  import opened Options
  import RouteTable

  datatype Account = Account(
    id: string,
    password: string,
    name: string,
    email: string,
    phone: string,
    route: string,
    busNumber: string,
    totalStudents: nat,
    stopPoints: nat)

  /** The fixed driver accounts, in declaration order. */
  const Accounts: seq<Account> := [
    Account("ramesh.kumar@ctms.com", "driver123", "Mr. Ramesh Kumar", "ramesh.kumar@ctms.com",
      "+91 98765 43210", "Tenali - MG Road - College", "AP 16 TC 1234", 0, 4),
    Account("suresh.babu@ctms.com", "driver123", "Mr. Suresh Babu", "suresh.babu@ctms.com",
      "+91 98765 43211", "Tenali - Bus Stand - College", "AP 16 TC 1235", 0, 3),
    Account("venkatesh.reddy@ctms.com", "driver123", "Mr. Venkatesh Reddy", "venkatesh.reddy@ctms.com",
      "+91 98765 43212", "Guntur - Arundalpet - College", "AP 16 GN 2345", 0, 4),
    Account("prakash.rao@ctms.com", "driver123", "Mr. Prakash Rao", "prakash.rao@ctms.com",
      "+91 98765 43213", "Guntur - Brodipet - College", "AP 16 GN 2346", 0, 3),
    Account("krishna.murthy@ctms.com", "driver123", "Mr. Krishna Murthy", "krishna.murthy@ctms.com",
      "+91 98765 43214", "Guntur - Pattabhipuram - College", "AP 16 GN 2347", 0, 3),
    Account("satish.patnaik@ctms.com", "driver123", "Mr. Satish Patnaik", "satish.patnaik@ctms.com",
      "+91 98765 43215", "Vijayawada - Benz Circle - College", "AP 16 VW 3456", 0, 4),
    Account("ravi.kumar@ctms.com", "driver123", "Mr. Ravi Kumar", "ravi.kumar@ctms.com",
      "+91 98765 43216", "Vijayawada - Governorpet - College", "AP 16 VW 3457", 0, 3),
    Account("nagendra.prasad@ctms.com", "driver123", "Mr. Nagendra Prasad", "nagendra.prasad@ctms.com",
      "+91 98765 43217", "Vijayawada - Auto Nagar - College", "AP 16 VW 3458", 0, 3),
    Account("srinivas.reddy@ctms.com", "driver123", "Mr. Srinivas Reddy", "srinivas.reddy@ctms.com",
      "+91 98765 43218", "Vijayawada - Patamata - College", "AP 16 VW 3459", 0, 3),
    Account("mahesh.babu@ctms.com", "driver123", "Mr. Mahesh Babu", "mahesh.babu@ctms.com",
      "+91 98765 43219", "Tenali - Guntur - Mangalagiri - College", "AP 16 MG 4567", 0, 4)
  ]

  const InvalidCredentials: string := "Invalid driver credentials. Please try again."

  datatype LoginForm = LoginForm(driverId: string, password: string)

  /** The login page's state: the form, the error line, and the driver record kept in
      browser storage (absent until someone logs in). */
  datatype LoginState = LoginState(form: LoginForm, error: string, storedDriver: Option<Account>)

  /** Does account `a` accept the typed credentials? The id is compared after trimming
      and lower-casing both sides; the password after trimming the typed one only, and
      with case. */
  predicate Matches(a: Account, form: LoginForm) {
    ToLower(a.id) == ToLower(Trim(form.driverId)) && a.password == Trim(form.password)
  }

  /** Index of the first account in `accounts` accepting `form`, or |accounts|. */
  function FirstMatch(accounts: seq<Account>, form: LoginForm): (i: nat)
    ensures i <= |accounts|
    ensures i < |accounts| ==> Matches(accounts[i], form)
    ensures forall j :: 0 <= j < i ==> !Matches(accounts[j], form)
  {
    FindFrom(accounts, a => Matches(a, form), 0)
  }

  /** The search `Array.prototype.find` performs: the first position from `from` on
      whose account satisfies `p`, or |accounts|. */
  function FindFrom(accounts: seq<Account>, p: Account -> bool, from: nat): (i: nat)
    requires from <= |accounts|
    ensures from <= i <= |accounts|
    ensures i < |accounts| ==> p(accounts[i])
    ensures forall j :: from <= j < i ==> !p(accounts[j])
    decreases |accounts| - from
  {
    if from == |accounts| then from
    else if p(accounts[from]) then from
    else FindFrom(accounts, p, from + 1)
  }

  /** What a submit leads to: the dashboard, signed in as an account, or staying on
      the login page. */
  datatype Outcome = LoggedIn(account: Account) | Refused

  /** `handleSubmit`: on a match the first matching account is written to storage and
      the driver is sent to the dashboard; on no match storage is left alone and the
      error line is set. */
  function Submit(st: LoginState, accounts: seq<Account>): (r: (LoginState, Outcome))
    ensures r.0.form == st.form
    ensures r.1.LoggedIn? <==> exists a :: a in accounts && Matches(a, st.form)
    ensures r.1.LoggedIn? ==>
      r.0.storedDriver == Some(r.1.account) && r.0.error == st.error
    ensures r.1.LoggedIn? ==>
      exists i :: 0 <= i < |accounts| && r.1.account == accounts[i] && Matches(accounts[i], st.form)
        && forall j :: 0 <= j < i ==> !Matches(accounts[j], st.form)
    ensures r.1.Refused? ==> r.0.storedDriver == st.storedDriver && r.0.error == InvalidCredentials
  {
    var i := FirstMatch(accounts, st.form);
    if i < |accounts| then
      (st.(storedDriver := Some(accounts[i])), LoggedIn(accounts[i]))
    else
      assert forall a :: a in accounts ==> !Matches(a, st.form);
      (st.(error := InvalidCredentials), Refused)
  }

  /** `handleChange`: editing a field replaces it and clears the error line. */
  function EditId(st: LoginState, value: string): (r: LoginState)
    ensures r.form.driverId == value && r.form.password == st.form.password
    ensures r.error == "" && r.storedDriver == st.storedDriver
  {
    st.(form := st.form.(driverId := value), error := "")
  }

  function EditPassword(st: LoginState, value: string): (r: LoginState)
    ensures r.form.password == value && r.form.driverId == st.form.driverId
    ensures r.error == "" && r.storedDriver == st.storedDriver
  {
    st.(form := st.form.(password := value), error := "")
  }

  /** Lower-casing twice is lower-casing once. */
  lemma ToLowerIdempotent(s: string)
    ensures ToLower(ToLower(s)) == ToLower(s)
  {
  }

  /** Two ids that differ, among their first three characters, in a lower-case letter
      position differ after lower-casing too. */
  lemma LowerDiffers(a: string, b: string, p: nat)
    requires p < |a| && p < |b|
    requires 'a' <= a[p] <= 'z' && 'a' <= b[p] <= 'z' && a[p] != b[p]
    ensures ToLower(a) != ToLower(b)
  {
  }

  /** The first three letters of each account id, in table order. */
  const IdHeads: seq<string> := ["ram", "sur", "ven", "pra", "kri", "sat", "rav", "nag", "sri", "mah"]

  lemma AccountIdHeads()
    ensures forall k :: 0 <= k < |Accounts| ==> StartsWith(Accounts[k].id, IdHeads[k])
  {
    IdHeadsFirstHalf();
    IdHeadsSecondHalf();
  }

  lemma IdHeadsFirstHalf()
    ensures forall k :: 0 <= k < 5 ==> StartsWith(Accounts[k].id, IdHeads[k])
  {
  }

  lemma IdHeadsSecondHalf()
    ensures forall k :: 5 <= k < 10 ==> StartsWith(Accounts[k].id, IdHeads[k])
  {
  }

  /** `s` begins with `h`. */
  predicate StartsWith(s: string, h: string) {
    |h| <= |s| && forall p :: 0 <= p < |h| ==> s[p] == h[p]
  }

  predicate LowerLetters(s: string) {
    forall p :: 0 <= p < |s| ==> 'a' <= s[p] <= 'z'
  }

  lemma IdHeadsDistinct()
    ensures forall i, j :: 0 <= i < j < |IdHeads| ==> IdHeads[i] != IdHeads[j]
    ensures forall i :: 0 <= i < |IdHeads| ==> |IdHeads[i]| == 3 && LowerLetters(IdHeads[i])
  {
  }

  /** Strings starting with different lower-case heads stay different once lower-cased. */
  lemma HeadsSeparate(a: string, b: string, ha: string, hb: string)
    requires |ha| == |hb|
    requires StartsWith(a, ha) && StartsWith(b, hb) && ha != hb
    requires LowerLetters(ha) && LowerLetters(hb)
    ensures ToLower(a) != ToLower(b)
  {
  }

  /** The account ids are pairwise distinct even ignoring case. */
  lemma AccountIdsDistinct()
    ensures forall i, j :: 0 <= i < j < |Accounts| ==> ToLower(Accounts[i].id) != ToLower(Accounts[j].id)
  {
    AccountIdHeads();
    IdHeadsDistinct();
    forall i, j | 0 <= i < j < |Accounts|
      ensures ToLower(Accounts[i].id) != ToLower(Accounts[j].id)
    {
      HeadsSeparate(Accounts[i].id, Accounts[j].id, IdHeads[i], IdHeads[j]);
    }
  }

  /** Account k drives the k-th route offered at signup; so account routes are pairwise
      distinct and every one has an entry in the route table. */
  lemma AccountRoutes()
    ensures forall k :: 0 <= k < |Accounts| ==> Accounts[k].route == RouteTable.SignupRoutes[k]
    ensures forall i, j :: 0 <= i < j < |Accounts| ==> Accounts[i].route != Accounts[j].route
    ensures forall a :: a in Accounts ==> RouteTable.IsKey(a.route)
  {
    AccountRoutesInOrder();
    RouteTable.SignupRoutesDistinct();
    RouteTable.SignupRoutesAreKeys();
    forall a | a in Accounts
      ensures RouteTable.IsKey(a.route)
    {
      var k :| 0 <= k < |Accounts| && Accounts[k] == a;
      assert a.route in RouteTable.SignupRoutes;
    }
  }

  lemma AccountRoutesInOrder()
    ensures |Accounts| == |RouteTable.SignupRoutes|
    ensures forall k :: 0 <= k < |Accounts| ==> Accounts[k].route == RouteTable.SignupRoutes[k]
  {
  }

  /** Every account has the same password, "driver123". */
  lemma AccountPasswords()
    ensures forall k :: 0 <= k < |Accounts| ==> Accounts[k].password == "driver123"
  {
  }

  /** An account accepts its own credentials padded with whitespace, with the id typed
      in any case. */
  lemma PaddedCredentialsMatch(a: Account, form: LoginForm, pre: string, post: string, typed: string)
    requires AllSpaces(pre) && AllSpaces(post)
    requires ToLower(typed) == ToLower(a.id)
    requires Unpadded(typed) && Unpadded(a.password)
    requires form == LoginForm(pre + typed + post, pre + a.password + post)
    ensures Matches(a, form)
  {
    TrimAround(pre, typed, post);
    TrimAround(pre, a.password, post);
  }

  /** Trimming whitespace padding off an unpadded string gives the string back. */
  lemma TrimAround(pre: string, core: string, post: string)
    requires AllSpaces(pre) && AllSpaces(post) && Unpadded(core)
    ensures Trim(pre + core + post) == core
  {
    TrimPadded(pre, core, post);
  }

  predicate IdsDistinct(accounts: seq<Account>) {
    forall i, j :: 0 <= i < j < |accounts| ==> ToLower(accounts[i].id) != ToLower(accounts[j].id)
  }

  /** With ids distinct ignoring case, an account whose credentials were typed is the
      one logged in. */
  lemma LoginSelectsMatching(st: LoginState, accounts: seq<Account>, k: nat)
    requires IdsDistinct(accounts)
    requires k < |accounts| && Matches(accounts[k], st.form)
    ensures Submit(st, accounts).1 == LoggedIn(accounts[k])
  {
  }

  /** No password starts or ends with whitespace (a typed password is trimmed, so a
      padded one could never be matched). */
  predicate PasswordsUnpadded(accounts: seq<Account>) {
    forall k :: 0 <= k < |accounts| ==> Unpadded(accounts[k].password)
  }

  /** Non-empty, and neither starting nor ending with whitespace. */
  predicate Unpadded(s: string) {
    s != [] && !IsSpace(s[0]) && !IsSpace(s[|s| - 1])
  }

  /** The built-in table satisfies both conditions the login lemmas need. */
  lemma AccountTableUsable()
    ensures IdsDistinct(Accounts) && PasswordsUnpadded(Accounts)
  {
    AccountIdsDistinct();
    AccountPasswords();
    assert Unpadded("driver123");
    forall k | 0 <= k < |Accounts|
      ensures Unpadded(Accounts[k].password)
    {
    }
  }

  /** Whitespace around the typed id and password, and any change of case in the id,
      do not change the outcome: a driver typing their id padded and in other case, with
      their exact password, is logged in as their own account. */
  lemma LoginToleratesCaseAndPadding(st: LoginState, accounts: seq<Account>, k: nat, pre: string, post: string, typed: string)
    requires IdsDistinct(accounts) && PasswordsUnpadded(accounts)
    requires k < |accounts|
    requires AllSpaces(pre) && AllSpaces(post)
    requires ToLower(typed) == ToLower(accounts[k].id)
    requires Unpadded(typed)
    requires st.form == LoginForm(pre + typed + post, pre + accounts[k].password + post)
    ensures Submit(st, accounts).1 == LoggedIn(accounts[k])
  {
    PaddedCredentialsMatch(accounts[k], st.form, pre, post, typed);
    LoginSelectsMatching(st, accounts, k);
  }

  /** The password is case-sensitive: the right id with the password's first letter
      capitalised is refused, and the stored driver is left as it was. */
  lemma PasswordCaseSensitive(st: LoginState)
    requires st.form == LoginForm("ramesh.kumar@ctms.com", "Driver123")
    ensures Submit(st, Accounts).1 == Refused
    ensures Submit(st, Accounts).0.storedDriver == st.storedDriver
  {
    TrimUnpadded("Driver123");
    assert "driver123" != "Driver123" by {
      assert "driver123"[0] != "Driver123"[0];
    }
    AccountPasswords();
    RefusedWithoutPassword(st, Accounts);
  }

  /** Trimming leaves an unpadded string as it is. */
  lemma TrimUnpadded(s: string)
    requires Unpadded(s)
    ensures Trim(s) == s
  {
    TrimPadded([], s, []);
    assert [] + s + [] == s;
  }

  /** When no account has the typed (trimmed) password, the submit is refused. */
  lemma RefusedWithoutPassword(st: LoginState, accounts: seq<Account>)
    requires forall k :: 0 <= k < |accounts| ==> accounts[k].password != Trim(st.form.password)
    ensures Submit(st, accounts).1 == Refused
  {
    forall a | a in accounts
      ensures !Matches(a, st.form)
    {
      var k :| 0 <= k < |accounts| && accounts[k] == a;
    }
  }
}
