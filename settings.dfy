/** The skill's setup latch: the fixture's address and token are taken from the
    web settings until both are present, and are kept from then on. */
module SkillSettings {

  const IpKey := "ipstring"
  const TokenKey := "tokenstring"

  /** settings.get(key, ""): a missing key reads as the empty string. */
  function Get(settings: map<string, string>, key: string): (value: string) {
    if key in settings then settings[key] else ""
  }

  /** Both settings are non-empty, that is, truthy in Python. */
  predicate Complete(settings: map<string, string>) {
    Get(settings, IpKey) != "" && Get(settings, TokenKey) != ""
  }

  /** The fields on_websettings_changed reads and writes. */
  datatype Credentials = Credentials(isSetup: bool, ip: string, token: string)

  /** The fields as the constructor leaves them. */
  const Initial := Credentials(false, "", "")

  /** Specification of on_websettings_changed: once set up, nothing changes;
      before that, both fields take the current settings, and the latch closes
      exactly when both are non-empty. */
  function OnChanged(c: Credentials, settings: map<string, string>): (next: Credentials)
    ensures c.isSetup ==> next == c
    ensures !c.isSetup ==> (next.isSetup <==> next.ip != "" && next.token != "")
  {
    if c.isSetup then c
    else Credentials(Complete(settings), Get(settings, IpKey), Get(settings, TokenKey))
  }

  /** A series of settings changes, applied in order. */
  function Replay(c: Credentials, changes: seq<map<string, string>>): (final: Credentials)
    decreases |changes|
  {
    if changes == [] then c else Replay(OnChanged(c, changes[0]), changes[1..])
  }

  /** After one change the skill is set up exactly when it already was or both
      settings are now non-empty. */
  lemma LatchClosesOnComplete(c: Credentials, settings: map<string, string>)
    ensures OnChanged(c, settings).isSetup <==> c.isSetup || (Get(settings, IpKey) != "" && Get(settings, TokenKey) != "")
  {
  }

  /** A set-up skill holds a non-empty address and token. */
  predicate Valid(c: Credentials) {
    c.isSetup ==> c.ip != "" && c.token != ""
  }

  /** The constructor's state is valid and every change keeps it valid. */
  lemma ChangesKeepValid(c: Credentials, settings: map<string, string>)
    ensures Valid(Initial)
    ensures Valid(c) ==> Valid(OnChanged(c, settings))
  {
  }

  /** Once set up, no series of later changes alters the address or token. */
  lemma {:induction false} LatchIsSticky(c: Credentials, changes: seq<map<string, string>>)
    requires c.isSetup
    ensures Replay(c, changes) == c
    decreases |changes|
  {
    if changes != [] {
      LatchIsSticky(OnChanged(c, changes[0]), changes[1..]);
    }
  }

  /** Starting unset, a series of changes leaves the address and token of the
      first change in which both were non-empty, and the skill set up. */
  lemma {:induction false} LatchKeepsFirstComplete(c: Credentials, changes: seq<map<string, string>>, k: nat)
    requires !c.isSetup
    requires k < |changes| && Complete(changes[k])
    requires forall j | 0 <= j < k :: !Complete(changes[j])
    ensures Replay(c, changes) == Credentials(true, Get(changes[k], IpKey), Get(changes[k], TokenKey))
    decreases |changes|
  {
    var next := OnChanged(c, changes[0]);
    if k == 0 {
      LatchIsSticky(next, changes[1..]);
    } else {
      forall j | 0 <= j < k - 1
        ensures !Complete(changes[1..][j])
      {
        assert changes[1..][j] == changes[j + 1];
      }
      LatchKeepsFirstComplete(next, changes[1..], k - 1);
    }
  }

  /** Starting unset, if no change ever carried both settings, the skill stays
      unset and holds whatever the last change carried. */
  lemma {:induction false} LatchOpenTracksLatest(c: Credentials, changes: seq<map<string, string>>)
    requires !c.isSetup && changes != []
    requires forall j | 0 <= j < |changes| :: !Complete(changes[j])
    ensures var last := changes[|changes| - 1];
      Replay(c, changes) == Credentials(false, Get(last, IpKey), Get(last, TokenKey))
    decreases |changes|
  {
    var next := OnChanged(c, changes[0]);
    if |changes| > 1 {
      forall j | 0 <= j < |changes[1..]|
        ensures !Complete(changes[1..][j])
      {
        assert changes[1..][j] == changes[j + 1];
      }
      LatchOpenTracksLatest(next, changes[1..]);
    }
  }

  /** The skill object's settings-related fields. */
  class NanoLeafSkill {
    var isSetup: bool
    var ipString: string
    var tokenString: string

    function Creds(): (c: Credentials)
      reads this
    {
      Credentials(isSetup, ipString, tokenString)
    }

    constructor ()
      ensures Creds() == Initial
    {
      isSetup := false;
      ipString := "";
      tokenString := "";
    }

    /** on_websettings_changed, given the current web settings. The re-read by
        subscript inside the try block cannot fail: both keys are present once
        both values read as non-empty. */
    method OnWebSettingsChanged(settings: map<string, string>)
      modifies this
      ensures Creds() == OnChanged(old(Creds()), settings)
    {
      if !isSetup {
        ipString := Get(settings, IpKey);
        tokenString := Get(settings, TokenKey);
        if ipString != "" && tokenString != "" {
          ipString := settings[IpKey];
          tokenString := settings[TokenKey];
          isSetup := true;
        }
      }
    }
  }
}
