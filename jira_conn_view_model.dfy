/** `JiraConnViewModel`: the state behind the connection dialog, and the most
    recently used server list it keeps in the global user settings. */
module ConnViewModel {
  import opened Common
  import opened Base64Strings
  import opened JiraObjects
  import ConnValidation

  /** `max_servers`: the MRU list never holds more entries than this. */
  const MaxServers: nat := 8

  // ---------------------------------------------------------------------------
  // The MRU list as values

  /** `StringCollection.Remove`: drops the first occurrence, if any. */
  function RemoveFirst<T(==)>(l: seq<T>, x: T): (r: seq<T>)
    ensures |r| == if x in l then |l| - 1 else |l|
  {
    if l == [] then [] else if l[0] == x then l[1..] else [l[0]] + RemoveFirst(l[1..], x)
  }

  /** Removal takes out exactly one copy of the server, if there is one, and
      keeps every other entry. */
  lemma {:induction false} RemoveFirstMultiset<T>(l: seq<T>, x: T)
    ensures multiset(RemoveFirst(l, x)) == multiset(l) - multiset{x}
  {
    if l != [] {
      assert l == [l[0]] + l[1..];
      if l[0] != x {
        RemoveFirstMultiset(l[1..], x);
      }
    }
  }

  /** Removing the first occurrence leaves the entries before and after it, in
      order; without an occurrence nothing changes. */
  lemma {:induction false} RemoveFirstSplits<T>(l: seq<T>, x: T)
    ensures x !in l ==> RemoveFirst(l, x) == l
    ensures x in l ==> RemoveFirst(l, x) == l[..FirstIndex(l, x)] + l[FirstIndex(l, x) + 1..]
  {
    if l != [] {
      RemoveFirstSplits(l[1..], x);
      if l[0] != x {
        if x in l {
          assert x in l[1..];
          var j := FirstIndex(l[1..], x);
          assert l[..j + 1] == [l[0]] + l[1..][..j];
          assert l[j + 2..] == l[1..][j + 1..];
        } else {
          assert l == [l[0]] + l[1..];
        }
      }
    }
  }

  /** The trim loop: a list of `MaxServers` or more entries keeps its first
      `MaxServers - 1`, so that the insert leaves at most `MaxServers`. */
  function Trimmed<T>(l: seq<T>): (r: seq<T>)
    ensures |r| < MaxServers && r <= l
    ensures |l| < MaxServers ==> r == l
    ensures |l| >= MaxServers ==> r == l[..MaxServers - 1]
  {
    if |l| >= MaxServers then l[..MaxServers - 1] else l
  }

  /** `AddServer` on the list's contents. */
  function MoveToFront<T(==)>(l: seq<T>, x: T): (r: seq<T>)
    ensures 1 <= |r| <= MaxServers && r[0] == x
    ensures x in l && |l| <= MaxServers ==> |r| == |l|
    ensures x !in l && |l| < MaxServers ==> |r| == |l| + 1
  {
    [x] + Trimmed(RemoveFirst(l, x))
  }

  /** No entry occurs twice. */
  predicate Distinct<T(==)>(l: seq<T>)
  {
    forall i, j :: 0 <= i < j < |l| ==> l[i] != l[j]
  }

  /** The added server is first and the list holds at most `MaxServers`
      entries; the others are the list without that server, in their old
      order, cut after `MaxServers - 1`. */
  lemma MoveToFrontShape<T>(l: seq<T>, x: T)
    ensures var r := MoveToFront(l, x);
            1 <= |r| <= MaxServers && r[0] == x && r[1..] <= RemoveFirst(l, x)
            && (|RemoveFirst(l, x)| < MaxServers ==> r[1..] == RemoveFirst(l, x))
            && (|RemoveFirst(l, x)| >= MaxServers ==> r[1..] == RemoveFirst(l, x)[..MaxServers - 1])
  {
    var r := MoveToFront(l, x);
    assert r[1..] == Trimmed(RemoveFirst(l, x));
  }

  /** Moving a server that is already listed to the front, in a list shorter
      than `MaxServers`, keeps every entry. */
  lemma MoveToFrontKeepsEntries<T>(l: seq<T>, x: T)
    requires x in l && |l| <= MaxServers
    ensures multiset(MoveToFront(l, x)) == multiset(l)
  {
    var i := FirstIndex(l, x);
    RemoveFirstSplits(l, x);
    assert l == l[..i] + [x] + l[i + 1..];
  }

  /** A sequence with distinct entries, with one occurrence removed, no longer
      holds it and still has distinct entries. */
  lemma {:induction false} RemoveFirstDistinct<T>(l: seq<T>, x: T)
    requires Distinct(l)
    ensures x !in RemoveFirst(l, x) && Distinct(RemoveFirst(l, x))
    ensures forall y :: y in RemoveFirst(l, x) ==> y in l
  {
    if l != [] {
      assert Distinct(l[1..]) by {
        forall i, j | 0 <= i < j < |l[1..]| ensures l[1..][i] != l[1..][j] {
          assert l[1..][i] == l[i + 1] && l[1..][j] == l[j + 1];
        }
      }
      if l[0] == x {
        forall y | y in l[1..] ensures y != x {
          var k :| 0 <= k < |l[1..]| && l[1..][k] == y;
          assert l[k + 1] == y;
        }
      } else {
        RemoveFirstDistinct(l[1..], x);
        var t := RemoveFirst(l[1..], x);
        assert l[0] !in t by {
          forall y | y in t ensures y != l[0] {
            var k :| 0 <= k < |l[1..]| && l[1..][k] == y;
            assert l[k + 1] == y;
          }
        }
        assert RemoveFirst(l, x) == [l[0]] + t;
        forall i, j | 0 <= i < j < |[l[0]] + t| ensures ([l[0]] + t)[i] != ([l[0]] + t)[j] {
          if i > 0 { assert ([l[0]] + t)[i] == t[i - 1]; }
          assert ([l[0]] + t)[j] == t[j - 1];
        }
      }
    }
  }

  /** A list without duplicates stays without duplicates. */
  lemma MoveToFrontDistinct<T>(l: seq<T>, x: T)
    requires Distinct(l)
    ensures Distinct(MoveToFront(l, x))
  {
    var t := RemoveFirst(l, x);
    RemoveFirstDistinct(l, x);
    var p := Trimmed(t);
    assert x !in p by {
      forall k | 0 <= k < |p| ensures p[k] != x { assert p[k] == t[k]; }
    }
    var r := [x] + p;
    forall i, j | 0 <= i < j < |r| ensures r[i] != r[j] {
      assert r[j] == t[j - 1];
      if i > 0 { assert r[i] == t[i - 1]; }
    }
  }

  // ---------------------------------------------------------------------------
  // The list as an object

  /** `JiraTrackerSettings.Default.MruServers`: one list shared by every view
      model. Entries may be null (a null server name is added as is). */
  class MruServers {
    var servers: seq<Option<string>>

    constructor (initial: seq<Option<string>>)
      ensures servers == initial
    {
      servers := initial;
    }

    /** `AddServer`: remove the first occurrence, trim with `RemoveAt(7)`
        while there are `MaxServers` or more entries, insert at the front. */
    method AddServer(server: Option<string>)
      modifies this
      ensures servers == MoveToFront(old(servers), server)
    {
      var rest := servers;
      RemoveFirstSplits(rest, server);
      if server in rest {
        var i := FindFirst(rest, server);
        rest := rest[..i] + rest[i + 1..];
      }
      rest := TrimToFit(rest);
      servers := [server] + rest;
    }
  }

  /** The scan `StringCollection.Remove` makes: the index of the first
      occurrence. */
  method FindFirst<T(==)>(l: seq<T>, x: T) returns (i: nat)
    requires x in l
    ensures i == FirstIndex(l, x)
  {
    i := 0;
    while l[i] != x
      invariant 0 <= i < |l| && x !in l[..i]
      decreases |l| - i
    {
      assert l[..i + 1] == l[..i] + [l[i]];
      i := i + 1;
    }
    FirstIndexUnique(l, x, i);
  }

  /** The trim loop of `AddServer`: `RemoveAt(MaxServers - 1)` while the list
      holds `MaxServers` or more entries. */
  method TrimToFit<T>(l: seq<T>) returns (r: seq<T>)
    ensures r == Trimmed(l)
  {
    r := l;
    while |r| >= MaxServers
      invariant (|l| < MaxServers && r == l)
             || (MaxServers - 1 <= |r| <= |l| && r[..MaxServers - 1] == l[..MaxServers - 1])
      decreases |r|
    {
      r := r[..MaxServers - 1] + r[MaxServers..];
    }
  }

  // ---------------------------------------------------------------------------
  // The view model

  /** A snapshot of the view model's fields. */
  datatype VmState = VmState(
    serverName: Option<string>,
    user: Option<string>,
    password: Option<Base64String>,
    selectedProject: Option<JiraProject>,
    errorMessage: Option<string>,
    projectsList: Option<seq<Option<JiraProject>>>,
    isBusy: bool)

  /** `JiraConnViewModel`. Its setters write only a value that differs from
      the current one; a new server, user or password drops the fetched
      project list. */
  class JiraConnViewModel {
    var serverName: Option<string>
    var user: Option<string>
    var password: Option<Base64String>
    var selectedProject: Option<JiraProject>
    var errorMessage: Option<string>
    var projectsList: Option<seq<Option<JiraProject>>>
    var isBusy: bool
    /** The shared MRU list (`JiraTrackerSettings.Default.MruServers`). */
    const mru: MruServers

    function State(): VmState
      reads this
    {
      VmState(serverName, user, password, selectedProject, errorMessage, projectsList, isBusy)
    }

    /** `new JiraConnViewModel()`: every field null or false. */
    constructor (mru: MruServers)
      ensures State() == VmState(None, None, None, None, None, None, false) && this.mru == mru
    {
      serverName, user, password, selectedProject := None, None, None, None;
      errorMessage, projectsList, isBusy := None, None, false;
      this.mru := mru;
    }

    /** `CanSave`: the Done button is enabled exactly when a project is
        selected. */
    function CanSave(): (b: bool)
      reads this
      ensures b <==> selectedProject.Some?
    {
      selectedProject.Some?
    }

    /** The `ProjectsList` setter. */
    method SetProjectsList(v: Option<seq<Option<JiraProject>>>)
      modifies this
      ensures State() == old(State()).(projectsList := v)
    {
      if v != projectsList {
        projectsList := v;
      }
    }

    /** The `ServerName` setter. */
    method SetServerName(v: Option<string>)
      modifies this
      ensures v == old(serverName) ==> State() == old(State())
      ensures v != old(serverName) ==> State() == old(State()).(serverName := v, projectsList := None)
    {
      if v != serverName {
        serverName := v;
        SetProjectsList(None);
      }
    }

    /** The `User` setter. */
    method SetUser(v: Option<string>)
      modifies this
      ensures v == old(user) ==> State() == old(State())
      ensures v != old(user) ==> State() == old(State()).(user := v, projectsList := None)
    {
      if v != user {
        user := v;
        SetProjectsList(None);
      }
    }

    /** The `Password` setter. */
    method SetPassword(v: Option<Base64String>)
      modifies this
      ensures v == old(password) ==> State() == old(State())
      ensures v != old(password) ==> State() == old(State()).(password := v, projectsList := None)
    {
      if v != password {
        password := v;
        SetProjectsList(None);
      }
    }

    /** The `SelectedProject` setter. */
    method SetSelectedProject(v: Option<JiraProject>)
      modifies this
      ensures State() == old(State()).(selectedProject := v)
    {
      if v != selectedProject {
        selectedProject := v;
      }
    }

    /** The `IsBusy` setter. */
    method SetIsBusy(v: bool)
      modifies this
      ensures State() == old(State()).(isBusy := v)
    {
      if v != isBusy {
        isBusy := v;
      }
    }

    /** The `ErrorMessage` setter. */
    method SetErrorMessage(v: Option<string>)
      modifies this
      ensures State() == old(State()).(errorMessage := v)
    {
      if v != errorMessage {
        errorMessage := v;
      }
    }

    /** `AddServer`: moves the server to the front of the shared list. */
    method AddServer(server: Option<string>)
      modifies mru
      ensures mru.servers == MoveToFront(old(mru.servers), server)
    {
      mru.AddServer(server);
    }
  }

  /** The Done button's `IsDefault` (the converter in "False" mode) follows
      `CanSave`, and the Get Projects button's (the "True" mode) is its
      opposite. */
  lemma CanSaveDrivesDefaultButton(vm: JiraConnViewModel)
    ensures vm.CanSave() == ConnValidation.SelectedProjectToBool(vm.selectedProject, Some("False"))
    ensures !vm.CanSave() == ConnValidation.SelectedProjectToBool(vm.selectedProject, Some("True"))
  {
  }
}
