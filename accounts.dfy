/** The account table of `src/persistence/account.rs`: e-mail addresses are
    lower-cased on the way in, the table holds at most one account per
    lower-cased address, and accounts are looked up by address. */
module Accounts {
  import opened Common

  predicate IsUpper(c: char) {
    'A' <= c <= 'Z'
  }

  /** `c` and `d` are the same character up to the case of a letter. */
  predicate SameIgnoringCase(c: char, d: char) {
    || c == d
    || (IsUpper(c) && d as int == c as int + 32)
    || (IsUpper(d) && c as int == d as int + 32)
  }

  ghost predicate EqualIgnoringCase(s: string, t: string) {
    |s| == |t| && forall i :: 0 <= i < |s| ==> SameIgnoringCase(s[i], t[i])
  }

  predicate IsLowercase(s: string) {
    forall i :: 0 <= i < |s| ==> !IsUpper(s[i])
  }

  function LowerChar(c: char): (d: char) {
    if IsUpper(c) then (c as int + 32) as char else c
  }

  /** `to_lowercase`, on ASCII letters: the result is the input with every
      upper-case letter replaced by its lower-case partner. */
  function Lowercase(s: string): (r: string)
    ensures |r| == |s| && IsLowercase(r)
    ensures forall i :: 0 <= i < |s| ==> SameIgnoringCase(s[i], r[i])
  {
    if s == [] then [] else [LowerChar(s[0])] + Lowercase(s[1..])
  }

  /** A normalised address: only `EmailAddress::from` builds one. */
  type EmailAddress = s: string | IsLowercase(s) witness ""

  /** `EmailAddress::from`. */
  function EmailFrom(raw: string): (e: EmailAddress)
    ensures EqualIgnoringCase(raw, e)
  {
    Lowercase(raw)
  }

  /** Lower-casing a lower-case string changes nothing. */
  lemma LowercaseFixesLowercase(s: string)
    requires IsLowercase(s)
    ensures Lowercase(s) == s
  {
  }

  /** Normalising is idempotent. */
  lemma EmailFromIdempotent(raw: string)
    ensures EmailFrom(EmailFrom(raw)) == EmailFrom(raw)
  {
  }

  /** Two inputs normalise to the same address exactly when they differ only
      in the case of their letters. */
  lemma EmailFromCaseInsensitive(s: string, t: string)
    ensures EmailFrom(s) == EmailFrom(t) <==> EqualIgnoringCase(s, t)
  {
  }

  /** The output of bcrypt; never inspected here. */
  datatype HashedPassword = HashedPassword(hash: string)

  /** A row of `account`. */
  datatype Account = Account(accountUid: Uuid, emailAddress: string, password: string)

  datatype AccountError = DuplicateEmail

  /** The `account` table, keyed by the expression of its unique index
      `uk_account_email_address_lower`, `lower(email_address)`. */
  class AccountTable {
    var accounts: map<string, Account>

    /** Every row sits under the lower-cased form of its own address; since
        rows are only written with normalised addresses, that is the address
        itself. */
    ghost predicate Valid()
      reads this
    {
      forall k :: k in accounts ==> IsLowercase(k) && accounts[k].emailAddress == k
    }

    constructor ()
      ensures Valid() && accounts == map[]
    {
      accounts := map[];
    }

    /** `fetch_account_by_email`: the row whose `email_address` equals the
        address, or nothing. A function of the table: it changes nothing. */
    function FetchAccountByEmail(email: EmailAddress): (r: Option<Account>)
      reads this
      requires Valid()
      ensures r.Some? <==> exists k :: k in accounts && accounts[k].emailAddress == email
      ensures r.Some? ==> r.value in accounts.Values && r.value.emailAddress == email
    {
      if email in accounts then Some(accounts[email]) else None
    }

    /** `create_account`: inserts one row, unless the unique index already
        holds the lower-cased address, in which case the insert fails and the
        table is unchanged. */
    method CreateAccount(accountUid: Uuid, email: EmailAddress, password: HashedPassword) returns (r: Result<(), AccountError>)
      requires Valid()
      modifies this
      ensures Valid()
      ensures r.Err? <==> exists k :: k in old(accounts) && Lowercase(old(accounts)[k].emailAddress) == Lowercase(email)
      ensures r.Err? ==> accounts == old(accounts)
      ensures r.Ok? ==> accounts == old(accounts)[email := Account(accountUid, email, password.hash)]
      ensures r.Ok? ==> |accounts| == |old(accounts)| + 1
      ensures r.Ok? ==> FetchAccountByEmail(email) == Some(Account(accountUid, email, password.hash))
    {
      var key := Lowercase(email);
      LowercaseFixesLowercase(email);
      if key in accounts {
        LowercaseFixesLowercase(key);
        return Err(DuplicateEmail);
      }
      forall k | k in accounts ensures Lowercase(accounts[k].emailAddress) != key {
        LowercaseFixesLowercase(k);
      }
      accounts := accounts[key := Account(accountUid, email, password.hash)];
      r := Ok(());
    }
  }

  /** The scenario of `non_existent_email_addresses_return_no_results`. */
  method UnknownAddressNotFound() returns (r: Option<Account>)
    ensures r.None?
  {
    var table := new AccountTable();
    r := table.FetchAccountByEmail(EmailFrom("example@domain.com"));
  }

  /** The scenario of `accounts_can_be_created`: after creating an account,
      fetching by the same address finds its `account_uid`. */
  method CreatedAccountFound(accountUid: Uuid, password: HashedPassword) returns (found: Option<Uuid>)
    ensures found == Some(accountUid)
  {
    var table := new AccountTable();
    var email := EmailFrom("john@gmail.com");
    var created := table.CreateAccount(accountUid, email, password);
    var account := table.FetchAccountByEmail(email);
    found := if account.Some? then Some(account.value.accountUid) else None;
  }

  /** The scenario of `cannot_create_multiple_accounts_with_same_email`,
      generalised to a second address that differs from the first only in
      letter case: the first insert succeeds, the second fails and leaves the
      table as the first left it. */
  method DuplicateAddressRejected(first: string, second: string, uid1: Uuid, uid2: Uuid, password: HashedPassword)
    returns (r1: Result<(), AccountError>, r2: Result<(), AccountError>, owner: Option<Uuid>)
    requires EqualIgnoringCase(first, second)
    ensures r1.Ok? && r2.Err?
    ensures owner == Some(uid1)
  {
    var table := new AccountTable();
    r1 := table.CreateAccount(uid1, EmailFrom(first), password);
    EmailFromCaseInsensitive(first, second);
    r2 := table.CreateAccount(uid2, EmailFrom(second), password);
    var account := table.FetchAccountByEmail(EmailFrom(first));
    owner := if account.Some? then Some(account.value.accountUid) else None;
  }
}
