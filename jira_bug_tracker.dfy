/** `JiraBugTracker`: the plug-in object the host talks to. It keeps the
    dialog's view model, created on first use, and the active connection
    settings, and it turns a created issue's key into the number the host
    expects. */
module BugTracker {
  import opened Common
  import opened TextEncoding
  import opened JiraObjects
  import opened Transport
  import opened JiraClient
  import opened ConnViewModel
  import opened ConnectionModel

  /** The bug tracker's display name. */
  const Name: string := "JIRA"

  // ---------------------------------------------------------------------------
  // `int.Parse`

  /** The white space `int.Parse` allows before and after the number. */
  predicate IsParseWhite(c: char)
  {
    c == ' ' || '\t' <= c <= '\r'
  }

  /** `s` without its leading white space. */
  function TrimStart(s: string): (r: string)
    ensures |r| <= |s| && r == s[|s| - |r|..]
    ensures |r| > 0 ==> !IsParseWhite(r[0])
    ensures |s| > 0 && !IsParseWhite(s[0]) ==> r == s
    ensures AllWhite(s[..|s| - |r|])
  {
    if |s| > 0 && IsParseWhite(s[0]) then
      var t := s[1..];
      var r := TrimStart(t);
      assert r == t[|t| - |r|..] == s[|s| - |r|..];
      WhiteFront(s, |s| - |r|);
      r
    else s
  }

  /** `s` without its trailing white space. */
  function TrimEnd(s: string): (r: string)
    ensures r <= s
    ensures |r| > 0 ==> !IsParseWhite(r[|r| - 1])
    ensures |s| > 0 && !IsParseWhite(s[|s| - 1]) ==> r == s
    ensures AllWhite(s[|r|..])
  {
    if |s| > 0 && IsParseWhite(s[|s| - 1]) then
      var r := TrimEnd(s[..|s| - 1]);
      WhiteBack(s, |r|);
      r
    else s
  }

  /** A white first character before white text. */
  lemma WhiteFront(s: string, k: nat)
    requires 1 <= k <= |s| && IsParseWhite(s[0]) && AllWhite(s[1..][..k - 1])
    ensures AllWhite(s[..k])
  {
    forall i | 1 <= i < k ensures IsParseWhite(s[..k][i]) {
      assert s[..k][i] == s[1..][..k - 1][i - 1];
    }
  }

  /** White text before a white last character. */
  lemma WhiteBack(s: string, k: nat)
    requires k < |s| && IsParseWhite(s[|s| - 1]) && AllWhite(s[..|s| - 1][k..])
    ensures AllWhite(s[k..])
  {
    forall i | 0 <= i < |s| - 1 - k ensures IsParseWhite(s[k..][i]) {
      assert s[k..][i] == s[..|s| - 1][k..][i];
    }
  }

  predicate AllDigits(s: string)
  {
    forall i :: 0 <= i < |s| ==> '0' <= s[i] <= '9'
  }

  /** The value of a run of digits with a sign; None where it is empty, has a
      non-digit, or is outside the 32-bit range. */
  function SignedValue(digits: string, negative: bool): (r: Option<int>)
    ensures r.Some? ==> -0x8000_0000 <= r.value < 0x8000_0000
  {
    if |digits| == 0 || !AllDigits(digits) then None
    else
      var magnitude: int := DigitsValue(digits);
      var v := if negative then -magnitude else magnitude;
      if -0x8000_0000 <= v < 0x8000_0000 then Some(v) else None
  }

  /** `int.Parse` with the default number style: optional white space, an
      optional sign, at least one decimal digit, optional white space, and a
      value in the 32-bit range; None where it throws. */
  function ParseInt32(s: string): (r: Option<int>)
    ensures r.Some? ==> -0x8000_0000 <= r.value < 0x8000_0000
    ensures r.Some? ==>
              var t := TrimEnd(TrimStart(s));
              |t| > 0
              && var d := if t[0] == '-' || t[0] == '+' then t[1..] else t;
                 |d| > 0 && AllDigits(d)
  {
    var t := TrimEnd(TrimStart(s));
    if |t| > 0 && (t[0] == '-' || t[0] == '+') then SignedValue(t[1..], t[0] == '-')
    else SignedValue(t, false)
  }

  /** Text made only of the white space `int.Parse` skips. */
  predicate AllWhite(s: string)
  {
    forall i :: 0 <= i < |s| ==> IsParseWhite(s[i])
  }

  /** Leading white space is dropped up to the first other character. */
  lemma {:induction false} TrimStartSkips(lead: string, rest: string)
    requires AllWhite(lead) && |rest| > 0 && !IsParseWhite(rest[0])
    ensures TrimStart(lead + rest) == rest
  {
    if lead == [] {
      assert lead + rest == rest;
    } else {
      assert (lead + rest)[0] == lead[0];
      assert (lead + rest)[1..] == lead[1..] + rest;
      assert AllWhite(lead[1..]) by {
        forall i | 0 <= i < |lead[1..]| ensures IsParseWhite(lead[1..][i]) {
          assert lead[1..][i] == lead[i + 1];
        }
      }
      TrimStartSkips(lead[1..], rest);
    }
  }

  /** Trailing white space is dropped back to the last other character. */
  lemma {:induction false} TrimEndSkips(rest: string, trail: string)
    requires AllWhite(trail) && |rest| > 0 && !IsParseWhite(rest[|rest| - 1])
    ensures TrimEnd(rest + trail) == rest
  {
    if trail == [] {
      assert rest + trail == rest;
    } else {
      var s := rest + trail;
      var shorter := trail[..|trail| - 1];
      assert s[|s| - 1] == trail[|trail| - 1];
      assert s[..|s| - 1] == rest + shorter;
      assert AllWhite(shorter) by {
        forall i | 0 <= i < |shorter| ensures IsParseWhite(shorter[i]) {
          assert shorter[i] == trail[i];
        }
      }
      TrimEndSkips(rest, shorter);
    }
  }

  /** A signed run of digits is in range or refused. */
  lemma SignedValueRange(digits: string, negative: bool)
    requires |digits| > 0 && AllDigits(digits)
    ensures var v := if negative then -(DigitsValue(digits) as int) else DigitsValue(digits) as int;
            SignedValue(digits, negative) == if -0x8000_0000 <= v < 0x8000_0000 then Some(v) else None
  {
  }

  /** `int.Parse` of white space, an optional sign, decimal digits and white
      space gives the digits' value with that sign when it fits in 32 bits,
      and fails when it does not. */
  lemma ParseInt32Reads(lead: string, sign: string, digits: string, trail: string)
    requires AllWhite(lead) && AllWhite(trail)
    requires sign == "" || sign == "+" || sign == "-"
    requires |digits| > 0 && AllDigits(digits)
    ensures var v := if sign == "-" then -(DigitsValue(digits) as int) else DigitsValue(digits) as int;
            ParseInt32(lead + sign + digits + trail) == if -0x8000_0000 <= v < 0x8000_0000 then Some(v) else None
  {
    var core := sign + digits;
    Regroup(lead, sign, digits, trail);
    assert core[|core| - 1] == digits[|digits| - 1];
    assert core[0] == if sign == "" then digits[0] else sign[0];
    TrimsTo(lead, core, trail);
    var negative := sign == "-";
    assert ParseInt32(lead + sign + digits + trail) == SignedValue(digits, negative) by {
      ParseTrimmed(lead + core + trail, core);
      if sign == "" {
        assert core == digits;
      } else {
        assert core[1..] == digits;
      }
    }
    SignedValueRange(digits, negative);
  }

  /** `int.Parse` reads the trimmed text. */
  lemma ParseTrimmed(s: string, core: string)
    requires TrimEnd(TrimStart(s)) == core
    ensures ParseInt32(s) == if |core| > 0 && (core[0] == '-' || core[0] == '+') then SignedValue(core[1..], core[0] == '-')
                             else SignedValue(core, false)
  {
  }

  lemma Regroup<T>(a: seq<T>, b: seq<T>, c: seq<T>, d: seq<T>)
    ensures a + b + c + d == a + (b + c) + d
  {
  }

  /** Trimming both ends of white space, text and white space gives the text
      back when it starts and ends with other characters. */
  lemma TrimsTo(lead: string, core: string, trail: string)
    requires AllWhite(lead) && AllWhite(trail)
    requires |core| > 0 && !IsParseWhite(core[0]) && !IsParseWhite(core[|core| - 1])
    ensures TrimEnd(TrimStart(lead + core + trail)) == core
  {
    assert lead + core + trail == lead + (core + trail);
    assert (core + trail)[0] == core[0];
    TrimStartSkips(lead, core + trail);
    TrimEndSkips(core, trail);
  }

  /** Text without a decimal digit never parses. */
  lemma ParseInt32NeedsDigit(s: string)
    requires forall i :: 0 <= i < |s| ==> !('0' <= s[i] <= '9')
    ensures ParseInt32(s) == None
  {
    var u := TrimStart(s);
    var t := TrimEnd(u);
    forall i | 0 <= i < |t| ensures !('0' <= t[i] <= '9') {
      assert t[i] == u[i] && u[i] == s[|s| - |u| + i];
    }
    if |t| > 1 {
      assert t[1..][0] == t[1];
    }
  }

  /** The number `SubmitBug` returns for a created issue's key: `int.Parse`
      of the key from its first '-' on, so the sign comes from the dash.
      None where an exception escapes: a null key, a key without '-', or a
      rest that is not a 32-bit number. */
  function ParseKey(key: Option<string>): (r: Option<int>)
    ensures key.None? || '-' !in key.value ==> r.None?
    ensures r.Some? ==> -0x8000_0000 <= r.value <= 0
  {
    if key.None? || '-' !in key.value then None
    else
      var rest := key.value[FirstIndex(key.value, '-')..];
      assert rest[0] == '-' && TrimStart(rest) == rest;
      ParseInt32(rest)
  }

  /** A text that starts with '-' has no leading white space. */
  lemma DashUntrimmed(digits: string)
    ensures TrimStart("-" + digits) == "-" + digits
  {
    assert ("-" + digits)[0] == '-';
  }

  /** A text that ends with a digit has no trailing white space. */
  lemma DigitUntrimmed(digits: string)
    requires |digits| > 0 && AllDigits(digits)
    ensures TrimEnd("-" + digits) == "-" + digits
  {
    var s := "-" + digits;
    assert s[|s| - 1] == digits[|digits| - 1];
  }

  /** A dash followed by decimal digits parses to the digits' value negated,
      when that fits in 32 bits. */
  lemma ParseNegative(digits: string)
    requires |digits| > 0 && AllDigits(digits) && DigitsValue(digits) <= 0x8000_0000
    ensures ParseInt32("-" + digits) == Some(-(DigitsValue(digits) as int))
  {
    var s := "-" + digits;
    DashUntrimmed(digits);
    DigitUntrimmed(digits);
    var t := TrimEnd(TrimStart(s));
    assert t == s;
    assert t[0] == '-' && t[1..] == digits;
    NegatedDigits(digits);
  }

  /** A negative run of digits whose value is at most 2^31 is in range. */
  lemma NegatedDigits(digits: string)
    requires |digits| > 0 && AllDigits(digits) && DigitsValue(digits) <= 0x8000_0000
    ensures SignedValue(digits, true) == Some(-(DigitsValue(digits) as int))
  {
  }

  /** A key made of a project prefix, '-' and an issue number gives the
      issue number negated. */
  lemma IssueKeyParses(prefix: string, n: nat)
    requires '-' !in prefix && n <= 0x8000_0000
    ensures ParseKey(Some(prefix + "-" + NatToString(n))) == Some(-(n as int))
  {
    var rest := "-" + NatToString(n);
    assert prefix + "-" + NatToString(n) == prefix + rest;
    KeyFromFirstDash(prefix, rest);
    DecimalNegative(n);
  }

  /** A negated issue number written in decimal parses back to itself. */
  lemma DecimalNegative(n: nat)
    requires n <= 0x8000_0000
    ensures ParseInt32("-" + NatToString(n)) == Some(-(n as int))
  {
    NatToStringRoundTrip(n);
    ParseNegative(NatToString(n));
  }

  /** A key whose first '-' follows a dash-free prefix is parsed from that
      dash on. */
  lemma KeyFromFirstDash(prefix: string, rest: string)
    requires '-' !in prefix && |rest| > 0 && rest[0] == '-'
    ensures ParseKey(Some(prefix + rest)) == ParseInt32(rest)
  {
    var key := prefix + rest;
    assert key[|prefix|] == '-';
    assert key[..|prefix|] == prefix;
    FirstIndexUnique(key, '-', |prefix|);
    assert key[|prefix|..] == rest;
  }

  /** The key of the worked example, "TSCB-14", gives -14. */
  lemma ExampleKey()
    ensures ParseKey(Some("TSCB-14")) == Some(-14)
  {
    assert NatToString(14) == "14";
    assert "TSCB" + "-" + "14" == "TSCB-14";
    IssueKeyParses("TSCB", 14);
  }

  // ---------------------------------------------------------------------------
  // The plug-in

  /** `IBug`: what the host hands over when a bug is submitted. */
  datatype Bug = Bug(
    title: Option<string>,
    description: Option<string>,
    priority: int,
    createdDate: int,
    author: Option<string>,
    assignedTo: Option<string>,
    attachments: seq<Attachment>)

  /** The fetched projects as the view model's list. */
  function AsProjectsList(projects: Option<seq<JiraProject>>): (r: Option<seq<Option<JiraProject>>>)
    ensures projects.None? <==> r.None?
    ensures projects.Some? ==> |r.value| == |projects.value|
                               && forall i :: 0 <= i < |projects.value| ==> r.value[i] == Some(projects.value[i])
  {
    if projects.None? then None
    else Some(seq(|projects.value|, i requires 0 <= i < |projects.value| => Some(projects.value[i])))
  }

  /** The state of a view model that has just been created. */
  const FreshVm: VmState := VmState(None, None, None, None, None, None, false)

  class JiraBugTracker {
    /** `jiraConnSettings`: null until first used, and after a reset. */
    var vm: JiraConnViewModel?
    /** `activeJiraConnection`: the settings bugs are submitted with. */
    var active: JiraConnectionModel?
    /** Whether the settings control has been created. */
    var hasSettingsControl: bool
    /** `ErrorMessage`: the error of the last submission. */
    var errorMessage: Option<string>
    /** The global MRU list every view model shares. */
    const mru: MruServers

    /** Every view model uses the global MRU list. */
    predicate Valid()
      reads this, vm
    {
      vm != null ==> vm.mru == mru
    }

    constructor (mru: MruServers)
      ensures Valid() && vm == null && active == null && !hasSettingsControl && errorMessage.None? && this.mru == mru
    {
      vm, active, hasSettingsControl, errorMessage := null, null, false, None;
      this.mru := mru;
    }

    /** The `JiraSettings` getter: the view model, created on first use. */
    method JiraSettings() returns (v: JiraConnViewModel)
      requires Valid()
      modifies this
      ensures Valid() && vm == v
      ensures old(vm) != null ==> v == old(vm)
      ensures old(vm) == null ==> fresh(v) && v.State() == FreshVm
      ensures active == old(active) && hasSettingsControl == old(hasSettingsControl) && errorMessage == old(errorMessage)
    {
      if vm == null {
        vm := new JiraConnViewModel(mru);
      }
      v := vm;
    }

    /** `IsConfigured`: the view model's `CanSave`. A view model not yet
        created would be a fresh one, which cannot save. */
    function IsConfigured(): (b: bool)
      reads this, vm
      ensures b <==> vm != null && vm.CanSave()
    {
      if vm == null then FreshVm.selectedProject.Some? else vm.CanSave()
    }

    /** `CanSave`: the same as `IsConfigured`. */
    function CanSave(): (b: bool)
      reads this, vm
      ensures b == IsConfigured()
    {
      if vm == null then FreshVm.selectedProject.Some? else vm.CanSave()
    }

    /** `CanClose`: not while projects are being fetched. */
    function CanClose(): (b: bool)
      reads this, vm
      ensures b <==> vm == null || !vm.isBusy
    {
      if vm == null then !FreshVm.isBusy else !vm.isBusy
    }

    /** `ApplyPersistableSettings`. `settings` is the argument after the
        `as JiraConnectionModel` cast: null both for null and for settings of
        another kind, and then nothing but the active connection changes. */
    method ApplyPersistableSettings(settings: JiraConnectionModel?) returns (ok: bool)
      requires Valid()
      modifies this, vm
      ensures Valid()
      ensures ok <==> settings != null
      ensures active == settings && hasSettingsControl == old(hasSettingsControl) && errorMessage == old(errorMessage)
      ensures !ok ==> vm == old(vm) && (vm != null ==> unchanged(vm))
      ensures ok ==> vm != null && (old(vm) != null ==> vm == old(vm)) && (old(vm) == null ==> fresh(vm))
      ensures ok ==> vm.State() == VmState(settings.serverName, settings.user, settings.password, settings.selectedProject,
                                           Some(""), Some([settings.selectedProject]),
                                           if old(vm) == null then false else old(vm.isBusy))
    {
      active := settings;
      if active == null {
        return false;
      }
      var v := JiraSettings();
      v.SetServerName(active.serverName);
      v.SetUser(active.user);
      v.SetPassword(active.password);
      v.SetErrorMessage(Some(""));
      v.SetProjectsList(Some([active.selectedProject]));
      v.SetSelectedProject(active.selectedProject);
      return true;
    }

    /** `GetPersistableSettings`: the active connection. */
    function GetPersistableSettings(): (r: JiraConnectionModel?)
      reads this
      ensures r == active
    {
      active
    }

    /** `ResetSettings`: forgets the view model, the active connection and the
        settings control, so the plug-in is no longer configured. */
    method ResetSettings()
      modifies this
      ensures Valid()
      ensures vm == null && active == null && !hasSettingsControl && errorMessage == old(errorMessage)
      ensures !IsConfigured() && !CanSave() && CanClose()
    {
      vm := null;
      active := null;
      hasSettingsControl := false;
    }

    /** `OnSave`: a new active connection holding the view model's four
        settings; the view model itself is left as it is. */
    method OnSave()
      requires Valid()
      modifies this
      ensures Valid()
      ensures vm != null && (old(vm) != null ==> vm == old(vm) && unchanged(vm)) && (old(vm) == null ==> fresh(vm) && vm.State() == FreshVm)
      ensures active != null && fresh(active)
      ensures active.Current() == Settings(vm.serverName, vm.user, vm.password, vm.selectedProject)
      ensures hasSettingsControl == old(hasSettingsControl) && errorMessage == old(errorMessage)
    {
      var v := JiraSettings();
      var m := new JiraConnectionModel();
      m.serverName := v.serverName;
      m.user := v.user;
      m.password := v.password;
      m.selectedProject := v.selectedProject;
      active := m;
    }

    /** What `SubmitBug` asks JIRA for, with the active settings. */
    function SubmitReply(w: World, s: Settings, bug: Bug): Reply<string>
      requires s.selectedProject.Some?
    {
      JiraComm(s.serverName, s.user, s.password)
        .SubmitOutcome(w, s.selectedProject.value.key, bug.title, bug.description, bug.attachments)
    }

    /** `SubmitBug`: submits with the active settings, records the error and
        returns the key's number. None where an exception escapes: no active
        connection, no selected project, a failure the client does not catch,
        or a key `ParseKey` rejects (the error is recorded first). */
    method SubmitBug(w: World, bug: Bug) returns (r: Option<int>)
      modifies this
      ensures vm == old(vm) && active == old(active) && hasSettingsControl == old(hasSettingsControl)
      ensures active == null || active.selectedProject.None? ==> r.None? && errorMessage == old(errorMessage)
      ensures active != null && active.selectedProject.Some? ==>
                var reply := SubmitReply(w, active.Current(), bug);
                (reply.Threw? ==> r.None? && errorMessage == old(errorMessage))
                && (reply.Returned? ==> errorMessage == reply.error && r == ParseKey(reply.result))
    {
      if active == null || active.selectedProject.None? {
        return None;
      }
      var comm := JiraComm(active.serverName, active.user, active.password);
      var reply := comm.SubmitBug(w, active.selectedProject.value.key, bug.title, bug.description, bug.priority,
                                  bug.createdDate, bug.author, bug.assignedTo, bug.attachments);
      if reply.Threw? {
        return None;
      }
      errorMessage := reply.error;
      r := ParseKey(reply.result);
    }

    /** `WorkerMethod`, the body of the background fetch: clear the error,
        fetch the projects with the view model's settings, show the error and
        the list, and on success move the server to the front of the MRU
        list. `threw` says an exception escaped the fetch. */
    method WorkerMethod(w: World) returns (threw: bool)
      requires Valid()
      modifies this, vm, mru
      ensures Valid() && vm != null && (old(vm) != null ==> vm == old(vm)) && (old(vm) == null ==> fresh(vm))
      ensures active == old(active) && hasSettingsControl == old(hasSettingsControl) && errorMessage == old(errorMessage)
      ensures var before := if old(vm) == null then FreshVm else old(vm.State());
              var reply := JiraComm(before.serverName, before.user, before.password).ProjectsReply(w);
              (threw <==> reply.Threw?)
              && (reply.Threw? ==> vm.State() == before.(errorMessage := Some("")) && mru.servers == old(mru.servers))
              && (reply.Returned? ==>
                    vm.State() == before.(errorMessage := reply.error, projectsList := AsProjectsList(reply.result))
                    && (reply.error.None? ==> mru.servers == MoveToFront(old(mru.servers), before.serverName))
                    && (reply.error.Some? ==> mru.servers == old(mru.servers)))
    {
      var v := JiraSettings();
      var comm := JiraComm(v.serverName, v.user, v.password);
      v.SetErrorMessage(Some(""));
      var projects := comm.GetProjects(w);
      if projects.Threw? {
        return true;
      }
      v.SetErrorMessage(projects.error);
      v.SetProjectsList(AsProjectsList(projects.result));
      if projects.error.None? {
        v.AddServer(v.serverName);
      }
      return false;
    }
  }
}
