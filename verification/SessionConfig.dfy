/** Session context (internal/session/configure.go): search path, role and settings, local to the transaction. */
module SessionConfig {
  import opened Wrappers
  import opened Ordering
  import opened Text
  import opened Domain
  import opened SqlSyntax
  import opened Postgres
  import SqlSafe

  datatype Failure = BadName(error: SqlSafe.BuildError) | SearchPathFailed | RoleFailed | SettingFailed(name: string)

  function Binding(name: string, value: string): seq<Value> {
    [Datum("string", name), Datum("string", value)]
  }

  /** The settings, one `set_config` each, until one fails. */
  ghost function SetFrom(db: Database, names: seq<string>, settings: map<string, string>,
          t: Tx): (r: (Tx, Option<Failure>))
    requires forall n :: n in names ==> n in settings
    decreases names
  {
    if names == [] then (t, None)
    else
      var next := Send(db, t, SET_CONFIG_TEXT, Binding(names[0], settings[names[0]]));
      if LastReply(next).Failed() then (next, Some(SettingFailed(names[0])))
      else SetFrom(db, names[1..], settings, next)
  }

  ghost function Configured(db: Database, schema: string, identity: Identity, t: Tx): (Tx, Option<Failure>) {
    if !IsIdentifier(schema) then (t, Some(BadName(SqlSafe.InvalidIdentifier(schema))))
    else if !IsIdentifier(identity.role) then (t, Some(BadName(SqlSafe.InvalidIdentifier(identity.role))))
    else
      var t1 := Send(db, t, SearchPathText(schema), []);
      if LastReply(t1).Failed() then (t1, Some(SearchPathFailed))
      else
        var t2 := Send(db, t1, RoleText(identity.role), []);
        if LastReply(t2).Failed() then (t2, Some(RoleFailed))
        else
          SortedElementsMembers(identity.settings.Keys);
          SetFrom(db, SortedElements(identity.settings.Keys), identity.settings, t2)
  }

  method Configure(tx: Transaction, schema: string, identity: Identity) returns (failure: Option<Failure>)
    modifies tx
    ensures (tx.State(), failure) == Configured(tx.db, schema, identity, old(tx.State()))
  {
    var quotedSchema := SqlSafe.Identifier(schema);
    if quotedSchema.Err? {
      return Some(BadName(quotedSchema.error));
    }
    var quotedRole := SqlSafe.Identifier(identity.role);
    if quotedRole.Err? {
      return Some(BadName(quotedRole.error));
    }
    var reply := tx.Exec("SET LOCAL search_path = " + (quotedSchema.value + ", pg_catalog"), []);
    if reply.Failed() {
      return Some(SearchPathFailed);
    }
    reply := tx.Exec("SET LOCAL ROLE " + quotedRole.value, []);
    if reply.Failed() {
      return Some(RoleFailed);
    }
    var names := SortKeys(identity.settings.Keys);
    SortedElementsMembers(identity.settings.Keys);
    hide Send;
    failure := SetEach(tx, names, identity.settings);
  }

  method SetEach(tx: Transaction, names: seq<string>, settings: map<string, string>) returns (failure: Option<Failure>)
    requires forall n :: n in names ==> n in settings
    modifies tx
    ensures (tx.State(), failure) == SetFrom(tx.db, names, settings, old(tx.State()))
  {
    hide Send;
    for i := 0 to |names|
      invariant SetFrom(tx.db, names[i..], settings, tx.State()) == SetFrom(tx.db, names, settings, old(tx.State()))
    {
      var name := names[i];
      assert names[i..][1..] == names[i + 1..];
      var reply := tx.Exec("SELECT set_config($1,$2,true)", Binding(name, settings[name]));
      if reply.Failed() {
        return Some(SettingFailed(name));
      }
    }
    return None;
  }

  // ---------- what is sent, and what fails ----------

  /** The statement that sets one setting for the transaction. */
  function SettingCommand(name: string, value: string): (string, seq<Value>) {
    ("SELECT set_config($1,$2,true)", [Datum("string", name), Datum("string", value)])
  }

  function SettingCommands(names: seq<string>, settings: map<string, string>): seq<(string, seq<Value>)>
    requires forall n :: n in names ==> n in settings
  {
    seq(|names|, i requires 0 <= i < |names| => SettingCommand(names[i], settings[names[i]]))
  }

  /** The statements of a whole configuration. */
  ghost function Commands(schema: string, identity: Identity): seq<(string, seq<Value>)> {
    SortedElementsMembers(identity.settings.Keys);
    [("SET LOCAL search_path = \"" + schema + "\", pg_catalog", []), ("SET LOCAL ROLE \"" + identity.role + "\"", [])]
    + SettingCommands(SortedElements(identity.settings.Keys), identity.settings)
  }

  lemma {:induction false} SettingsTell(db: Database, names: seq<string>, settings: map<string, string>, t: Tx)
    returns (k: nat)
    requires forall n :: n in names ==> n in settings
    ensures var (t', failure) := SetFrom(db, names, settings, t);
      && SentInOrder(t.log, t'.log, SettingCommands(names, settings), k, failure.Some?)
      && failure == if k < |names| then Some(SettingFailed(names[k])) else None
    decreases names
  {
    hide Send;
    if names == [] {
      NothingSent(t.log, []);
      k := 0;
    } else {
      var binding := Binding(names[0], settings[names[0]]);
      var next := Send(db, t, SET_CONFIG_TEXT, binding);
      SendLogs(db, t, SET_CONFIG_TEXT, binding);
      var e := Entry(SET_CONFIG_TEXT, binding, t.session, LastReply(next));
      var commands := SettingCommands(names, settings);
      assert commands[0] == (SET_CONFIG_TEXT, binding);
      assert commands[1..] == SettingCommands(names[1..], settings);
      if LastReply(next).Failed() {
        k := 0;
        SentFirst(t.log, e, [], commands, 0, true);
      } else {
        var n := SettingsTell(db, names[1..], settings, next);
        var (t', failure) := SetFrom(db, names[1..], settings, next);
        SentFirst(t.log, e, t'.log, commands, n, failure.Some?);
        k := n + 1;
      }
    }
  }

  /** A configuration sends nothing for a name that is no identifier, the schema first.  Else it sends search path, role
      and the settings in name order, and its failure names the statement that failed. */
  lemma ConfigureTells(db: Database, schema: string, identity: Identity, t: Tx) returns (k: nat)
    ensures var (t', failure) := Configured(db, schema, identity, t);
      if !IsIdentifier(schema) || !IsIdentifier(identity.role) then
        t' == t && failure
          == Some(BadName(SqlSafe.InvalidIdentifier(if IsIdentifier(schema) then identity.role else schema)))
      else
        && SentInOrder(t.log, t'.log, Commands(schema, identity), k, failure.Some?)
        && failure ==
          if k == 0 then Some(SearchPathFailed)
          else if k == 1 then Some(RoleFailed)
          else if k < |Commands(schema, identity)| then
            Some(SettingFailed(SortedElements(identity.settings.Keys)[k - 2]))
          else None
  {
    hide Send, IsIdentifier, SetFrom, SentInOrder, Commands, RoleAndSettings;
    k := 0;
    if IsIdentifier(schema) && IsIdentifier(identity.role) {
      ConfiguredIs(db, schema, identity, t);
      CommandsAre(schema, identity);
      hide Configured;
      k := PathTells(db, schema, identity, t);
    }
  }

  lemma PathTells(db: Database, schema: string, identity: Identity, t: Tx) returns (k: nat)
    requires IsIdentifier(schema) && IsIdentifier(identity.role)
    ensures var (t', failure) := PathAndRest(db, schema, identity, t);
      var commands, names := Commands(schema, identity), SortedElements(identity.settings.Keys);
      && |commands| == |names| + 2
      && SentInOrder(t.log, t'.log, commands, k, failure.Some?)
      && failure ==
        if k == 0 then Some(SearchPathFailed) else if k == 1 then Some(RoleFailed)
        else if k < |commands| then Some(SettingFailed(names[k - 2])) else None
  {
    hide Send, IsIdentifier, SentInOrder, Commands, RoleAndSettings, SearchPathText;
    var commands, path := Commands(schema, identity), SearchPathText(schema);
    var t1 := Send(db, t, path, []);
    SendLogs(db, t, path, []);
    CommandsAre(schema, identity);
    var e := Entry(path, [], t.session, LastReply(t1));
    k := 0;
    if LastReply(t1).Failed() {
      SentFirst(t.log, e, [], commands, 0, true);
    } else {
      var n := RoleTells(db, identity, SortedElements(identity.settings.Keys), t1);
      var (t', failure) := RoleAndSettings(db, identity, t1);
      SentFirst(t.log, e, t'.log, commands, n, failure.Some?);
      k := n + 1;
    }
  }

  ghost function PathAndRest(db: Database, schema: string, identity: Identity, t: Tx): (Tx, Option<Failure>) {
    var t1 := Send(db, t, SearchPathText(schema), []);
    if LastReply(t1).Failed() then (t1, Some(SearchPathFailed)) else RoleAndSettings(db, identity, t1)
  }

  ghost function RoleAndSettings(db: Database, identity: Identity, t: Tx): (Tx, Option<Failure>) {
    var t2 := Send(db, t, RoleText(identity.role), []);
    if LastReply(t2).Failed() then (t2, Some(RoleFailed))
    else
      SortedElementsMembers(identity.settings.Keys);
      SetFrom(db, SortedElements(identity.settings.Keys), identity.settings, t2)
  }

  lemma ConfiguredIs(db: Database, schema: string, identity: Identity, t: Tx)
    requires IsIdentifier(schema) && IsIdentifier(identity.role)
    ensures Configured(db, schema, identity, t) == PathAndRest(db, schema, identity, t)
  {
    hide Send, IsIdentifier, SetFrom;
  }

  lemma CommandsAre(schema: string, identity: Identity)
    ensures var names, commands := SortedElements(identity.settings.Keys), Commands(schema, identity);
      && (forall n :: n in names ==> n in identity.settings)
      && |commands| == |names| + 2
      && commands[0] == (SearchPathText(schema), []) && commands[1] == (RoleText(identity.role), [])
      && commands[1..] == [(RoleText(identity.role), [])] + SettingCommands(names, identity.settings)
  {
    SortedElementsMembers(identity.settings.Keys);
    TextsAreCommands(schema, identity.role);
    hide SearchPathText, RoleText;
  }

  lemma RoleTells(db: Database, identity: Identity, names: seq<string>, t: Tx) returns (k: nat)
    requires names == SortedElements(identity.settings.Keys) && forall n :: n in names ==> n in identity.settings
    ensures var (t', failure) := RoleAndSettings(db, identity, t);
      && SentInOrder(t.log, t'.log, [(RoleText(identity.role), [])] + SettingCommands(names, identity.settings), k,
        failure.Some?)
      && failure ==
        if k == 0 then Some(RoleFailed) else if k - 1 < |names| then Some(SettingFailed(names[k - 1])) else None
  {
    hide Send, SetFrom, SentInOrder;
    var role := RoleText(identity.role);
    var commands := [(role, [])] + SettingCommands(names, identity.settings);
    var t2 := Send(db, t, role, []);
    SendLogs(db, t, role, []);
    assert commands[1..] == SettingCommands(names, identity.settings);
    var e := Entry(role, [], t.session, LastReply(t2));
    k := 0;
    if LastReply(t2).Failed() {
      SentFirst(t.log, e, [], commands, 0, true);
    } else {
      var n := SettingsTell(db, names, identity.settings, t2);
      var (t', failure) := SetFrom(db, names, identity.settings, t2);
      SentFirst(t.log, e, t'.log, commands, n, failure.Some?);
      k := n + 1;
    }
  }

  lemma TextsAreCommands(schema: string, role: string)
    ensures SearchPathText(schema) == "SET LOCAL search_path = \"" + schema + "\", pg_catalog"
    ensures RoleText(role) == "SET LOCAL ROLE \"" + role + "\""
  {
  }

  // ---------- what success means ----------

  lemma SettingAccepted(db: Database, t: Tx, name: string, value: string)
    requires !LastReply(Send(db, t, SET_CONFIG_TEXT, Binding(name, value))).Failed()
    ensures var next := Send(db, t, SET_CONFIG_TEXT, Binding(name, value));
      && t.status.Active? && AllAccepted(t, next)
      && next == t.(log := next.log, session := t.session.(settings := t.session.settings[name := value]))
  {
    ConfigRead();
    hide Parse;
    AcceptedOnActive(db, t, SET_CONFIG_TEXT, Binding(name, value));
  }

  /** The settings named so far, over the existing ones. */
  ghost function Overlay(settings: map<string, string>, names: seq<string>,
          values: map<string, string>): map<string, string>
    requires forall n :: n in names ==> n in values
  {
    settings + map n | n in names :: values[n]
  }

  lemma OverlayStep(settings: map<string, string>, names: seq<string>, values: map<string, string>)
    requires names != [] && forall n :: n in names ==> n in values
    ensures forall n :: n in names[1..] ==> n in values
    ensures Overlay(settings[names[0] := values[names[0]]], names[1..], values) == Overlay(settings, names, values)
  {
    assert names == [names[0]] + names[1..];
  }

  lemma {:induction false} SettingsAccepted(db: Database, names: seq<string>, settings: map<string, string>, t: Tx)
    requires forall n :: n in names ==> n in settings
    requires t.status.Active? && SetFrom(db, names, settings, t).1 == None
    ensures var r := SetFrom(db, names, settings, t).0;
      && AllAccepted(t, r)
      && r == t.(log := r.log, session := t.session.(settings := Overlay(t.session.settings, names, settings)))
    decreases names
  {
    hide Send, AllAccepted;
    if names == [] {
      OverlayNothing(t.session.settings, settings);
      AllAcceptedReflexive(t);
    } else {
      var next := Send(db, t, SET_CONFIG_TEXT, Binding(names[0], settings[names[0]]));
      OverlayStep(t.session.settings, names, settings);
      SettingAccepted(db, t, names[0], settings[names[0]]);
      SettingsAccepted(db, names[1..], settings, next);
      AllAcceptedTransitive(t, next, SetFrom(db, names[1..], settings, next).0);
      hide Overlay;
    }
  }

  lemma OverlayNothing(settings: map<string, string>, values: map<string, string>)
    ensures Overlay(settings, [], values) == settings
  {
  }

  lemma OverlayAll(settings: map<string, string>, values: map<string, string>)
    ensures forall n :: n in SortedElements(values.Keys) ==> n in values
    ensures Overlay(settings, SortedElements(values.Keys), values) == settings + values
  {
    SortedElementsMembers(values.Keys);
    assert (map n | n in SortedElements(values.Keys) :: values[n]) == values;
  }

  /** The session after a successful call: the identity's settings override the existing ones, in no particular order.
      */
  function With(s: Session, schema: string, identity: Identity): Session {
    s.(path := schema, role := identity.role, settings := s.settings + identity.settings)
  }

  lemma ConfiguredOverlays(db: Database, schema: string, identity: Identity, t: Tx)
    requires Configured(db, schema, identity, t).1 == None
    ensures var r := Configured(db, schema, identity, t).0;
      && t.status.Active? && IsIdentifier(schema) && IsIdentifier(identity.role)
      && AllAccepted(t, r)
      && r == t.(log := r.log, session := With(t.session, schema, identity))
  {
    OverlayAll(t.session.settings, identity.settings);
    var names := SortedElements(identity.settings.Keys);
    var t1 := Send(db, t, SearchPathText(schema), []);
    PathAccepted(db, t, schema);
    var t2 := Send(db, t1, RoleText(identity.role), []);
    RoleAccepted(db, t1, identity.role);
    hide Send, IsIdentifier, AllAccepted, Overlay, SetFrom;
    SettingsAccepted(db, names, identity.settings, t2);
    AllAcceptedTransitive(t, t1, t2);
    AllAcceptedTransitive(t, t2, SetFrom(db, names, identity.settings, t2).0);
  }

  lemma PathAccepted(db: Database, t: Tx, schema: string)
    requires IsIdentifier(schema) && !LastReply(Send(db, t, SearchPathText(schema), [])).Failed()
    ensures var next := Send(db, t, SearchPathText(schema), []);
      && t.status.Active? && AllAccepted(t, next)
      && next == t.(log := next.log, session := t.session.(path := schema))
  {
    IdentifierHasNoQuote(schema);
    SearchPathRead(schema);
    hide Parse, SearchPathText;
    AcceptedOnActive(db, t, SearchPathText(schema), []);
  }

  lemma RoleAccepted(db: Database, t: Tx, role: string)
    requires IsIdentifier(role) && !LastReply(Send(db, t, RoleText(role), [])).Failed()
    ensures var next := Send(db, t, RoleText(role), []);
      && t.status.Active? && AllAccepted(t, next)
      && next == t.(log := next.log, session := t.session.(role := role))
  {
    IdentifierHasNoQuote(role);
    RoleRead(role);
    hide Parse, RoleText;
    AcceptedOnActive(db, t, RoleText(role), []);
  }
}
