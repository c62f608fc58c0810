/** `JiraConnectionModel`: the persisted connection settings of a project, and
    the key-value store they are saved to and loaded from. */
module ConnectionModel {
  import opened Common
  import opened Base64Strings
  import opened JiraObjects

  /** `RootName`: the store node name of these settings, the same for every
      model whatever its state. */
  function RootName(): (r: string)
    ensures r == "JiraConnectionModel"
  {
    "JiraConnectionModel"
  }

  /** The four persisted settings, as a value. */
  datatype Settings = Settings(
    serverName: Option<string>,
    user: Option<string>,
    password: Option<Base64String>,
    selectedProject: Option<JiraProject>)

  /** A value held in the store under a key. */
  datatype StoreValue = Text(text: Option<string>) | Password(password: Option<Base64String>) | Project(project: Option<JiraProject>)

  /** `GetValue<string>`: the text under `key`; null when the key holds no text. */
  function TextAt(values: map<string, StoreValue>, key: string): (r: Option<string>)
    ensures key in values && values[key].Text? ==> r == values[key].text
  {
    if key in values && values[key].Text? then values[key].text else None
  }

  /** `GetValue<Base64String>`. */
  function PasswordAt(values: map<string, StoreValue>, key: string): (r: Option<Base64String>)
    ensures key in values && values[key].Password? ==> r == values[key].password
  {
    if key in values && values[key].Password? then values[key].password else None
  }

  /** `GetValue<JiraProject>`. */
  function ProjectAt(values: map<string, StoreValue>, key: string): (r: Option<JiraProject>)
    ensures key in values && values[key].Project? ==> r == values[key].project
  {
    if key in values && values[key].Project? then values[key].project else None
  }

  /** What `SaveTo` leaves in the store: the four settings under the keys
      ServerName, User, Password and Project. */
  function Saved(values: map<string, StoreValue>, s: Settings): map<string, StoreValue>
  {
    values["ServerName" := Text(s.serverName)]["User" := Text(s.user)]
          ["Password" := Password(s.password)]["Project" := Project(s.selectedProject)]
  }

  /** What `LoadFrom` reads out of the store, from the same four keys. */
  function Loaded(values: map<string, StoreValue>): Settings
  {
    Settings(TextAt(values, "ServerName"), TextAt(values, "User"), PasswordAt(values, "Password"),
             ProjectAt(values, "Project"))
  }

  /** Loading what was saved restores all four settings, whatever else the
      store holds. */
  lemma LoadSaved(values: map<string, StoreValue>, s: Settings)
    ensures Loaded(Saved(values, s)) == s
  {
  }

  /** Saving touches only the four keys. */
  lemma SavedKeepsOtherKeys(values: map<string, StoreValue>, s: Settings)
    ensures Saved(values, s).Keys == values.Keys + {"ServerName", "User", "Password", "Project"}
    ensures forall k :: k in values && k !in {"ServerName", "User", "Password", "Project"} ==> Saved(values, s)[k] == values[k]
  {
  }

  /** `XmlStoreNode`, reduced to its key-value contents. */
  class XmlStore {
    var values: map<string, StoreValue>

    constructor (values: map<string, StoreValue>)
      ensures this.values == values
    {
      this.values := values;
    }

    /** `AddValue`; a key already present is overwritten. */
    method AddValue(key: string, v: StoreValue)
      modifies this
      ensures values == old(values)[key := v]
    {
      values := values[key := v];
    }
  }

  class JiraConnectionModel {
    var serverName: Option<string>
    var user: Option<string>
    var password: Option<Base64String>
    var selectedProject: Option<JiraProject>

    /** The settings as a value. */
    function Current(): Settings
      reads this
    {
      Settings(serverName, user, password, selectedProject)
    }

    /** The default constructor: every setting null. */
    constructor ()
      ensures Current() == Settings(None, None, None, None)
    {
      serverName, user, password, selectedProject := None, None, None, None;
    }

    /** The copy constructor: the same four settings. */
    constructor Copy(other: JiraConnectionModel)
      ensures Current() == other.Current()
    {
      serverName, user, password, selectedProject := other.serverName, other.user, other.password, other.selectedProject;
    }

    /** `ProjectName` as shown in the bug tracker list: the selected
        project's name, or the empty string when none is selected. */
    function ProjectName(): (r: Option<string>)
      reads this
      ensures selectedProject.None? ==> r == Some("")
      ensures selectedProject.Some? ==> r == selectedProject.value.name
    {
      if selectedProject.Some? then selectedProject.value.name else Some("")
    }

    /** The `ProjectName` setter is not implemented: it always throws. */
    function SetProjectName(v: Option<string>): (r: Reply<string>)
      ensures r.Threw?
    {
      Threw
    }

    /** `SaveTo`. */
    method SaveTo(store: XmlStore)
      modifies store
      ensures store.values == Saved(old(store.values), Current())
    {
      store.AddValue("ServerName", Text(serverName));
      store.AddValue("User", Text(user));
      store.AddValue("Password", Password(password));
      store.AddValue("Project", Project(selectedProject));
    }

    /** `LoadFrom`. */
    method LoadFrom(store: XmlStore)
      modifies this
      ensures Current() == Loaded(store.values)
    {
      serverName := TextAt(store.values, "ServerName");
      user := TextAt(store.values, "User");
      password := PasswordAt(store.values, "Password");
      selectedProject := ProjectAt(store.values, "Project");
    }
  }

  /** Saving a model and loading the store into another model copies the
      settings over. */
  method SaveThenLoad(source: JiraConnectionModel, target: JiraConnectionModel, store: XmlStore)
    modifies store, target
    ensures target.Current() == old(source.Current())
  {
    source.SaveTo(store);
    LoadSaved(old(store.values), source.Current());
    target.LoadFrom(store);
  }
}
