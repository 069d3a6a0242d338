/** The in-memory account list of `Storage`: a list of `{email, password}`
    records, loaded once from a file and rewritten after every change. The
    file itself is not modelled, only what it loads as. */
module Storage {
  import opened Seqs

  datatype StoredAccount = StoredAccount(email: string, password: string)

  /** What the accounts file holds when `Storage` is constructed. */
  datatype AccountFile = Missing | Unreadable | Parsed(accounts: seq<StoredAccount>)

  /** `_load_accounts`: the parsed list, or the empty list when the file is
      missing or cannot be read or parsed. */
  function LoadAccounts(f: AccountFile): (r: seq<StoredAccount>)
    ensures f.Parsed? ==> r == f.accounts
    ensures !f.Parsed? ==> r == []
  {
    match f
    case Parsed(accounts) => accounts
    case _ => []
  }

  /** `save_account`: exactly one record is added, at the end; the earlier
      records are kept, and an email already present is added again. */
  function SaveAccount(accounts: seq<StoredAccount>, email: string, password: string): (r: seq<StoredAccount>)
    ensures |r| == |accounts| + 1
    ensures r[..|accounts|] == accounts
    ensures r[|accounts|] == StoredAccount(email, password)
    ensures multiset(r) == multiset(accounts) + multiset{StoredAccount(email, password)}
  {
    accounts + [StoredAccount(email, password)]
  }

  /** `get_accounts`: the in-memory list itself. */
  function GetAccounts(accounts: seq<StoredAccount>): seq<StoredAccount> {
    accounts
  }

  /** `remove_account`: no record with `email` remains, and every other
      record is kept, once per occurrence and in its original order. */
  function RemoveAccount(accounts: seq<StoredAccount>, email: string): (r: seq<StoredAccount>)
    ensures forall a :: a in r <==> a in accounts && a.email != email
    ensures forall a :: multiset(r)[a] == if a.email == email then 0 else multiset(accounts)[a]
    ensures IsSubseq(r, accounts)
  {
    var keep := (a: StoredAccount) => a.email != email;
    FilterSpec(accounts, keep);
    Filter(accounts, keep)
  }

  /** Removing an email nobody has changes nothing; removing twice is
      removing once. */
  lemma RemoveAbsentAndTwice(accounts: seq<StoredAccount>, email: string)
    ensures (forall i :: 0 <= i < |accounts| ==> accounts[i].email != email) ==>
      RemoveAccount(accounts, email) == accounts
    ensures RemoveAccount(RemoveAccount(accounts, email), email) == RemoveAccount(accounts, email)
  {
    if forall i :: 0 <= i < |accounts| ==> accounts[i].email != email {
      FilterKeepsAll(accounts, (a: StoredAccount) => a.email != email);
    }
    var once := RemoveAccount(accounts, email);
    forall i | 0 <= i < |once|
      ensures once[i].email != email
    {
      assert once[i] in once;
    }
    assert once == Filter(accounts, (a: StoredAccount) => a.email != email);
    FilterKeepsAll(once, (a: StoredAccount) => a.email != email);
  }

  /** Removing an email undoes saving it, and saving a different email
      commutes with the removal. */
  lemma RemoveAfterSave(accounts: seq<StoredAccount>, email: string, password: string, other: string)
    ensures RemoveAccount(SaveAccount(accounts, email, password), email) == RemoveAccount(accounts, email)
    ensures other != email ==>
      RemoveAccount(SaveAccount(accounts, other, password), email)
      == SaveAccount(RemoveAccount(accounts, email), other, password)
  {
    var p := (a: StoredAccount) => a.email != email;
    var mine := [StoredAccount(email, password)];
    var theirs := [StoredAccount(other, password)];
    FilterAppend(accounts, mine, p);
    assert mine[1..] == [];
    assert Filter(mine, p) == [];
    if other != email {
      FilterAppend(accounts, theirs, p);
      assert theirs[1..] == [];
      assert Filter(theirs, p) == theirs;
    }
  }

  /** The store after loading a file and applying a series of saves and
      removals; `get_accounts` returns exactly this list. */
  datatype Change = Save(email: string, password: string) | Remove(address: string)

  function ApplyChanges(accounts: seq<StoredAccount>, cs: seq<Change>): seq<StoredAccount>
    decreases |cs|
  {
    if cs == [] then accounts
    else
      var next := match cs[0]
        case Save(e, p) => SaveAccount(accounts, e, p)
        case Remove(e) => RemoveAccount(accounts, e);
      ApplyChanges(next, cs[1..])
  }

  /** After any series of changes the list holds only records that were
      loaded or saved. */
  lemma {:induction false} ChangesOnlyKeepKnownRecords(accounts: seq<StoredAccount>, cs: seq<Change>, a: StoredAccount)
    requires a in GetAccounts(ApplyChanges(accounts, cs))
    ensures a in accounts || exists i :: 0 <= i < |cs| && cs[i] == Save(a.email, a.password)
    decreases |cs|
  {
    if cs != [] {
      var next := match cs[0]
        case Save(e, p) => SaveAccount(accounts, e, p)
        case Remove(e) => RemoveAccount(accounts, e);
      ChangesOnlyKeepKnownRecords(next, cs[1..], a);
      if a !in accounts && a in next {
        assert cs[0] == Save(a.email, a.password);
      } else if a !in next {
        var i :| 0 <= i < |cs[1..]| && cs[1..][i] == Save(a.email, a.password);
        assert cs[i + 1] == Save(a.email, a.password);
      }
    }
  }
}
