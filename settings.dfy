/** The settings screen: company profiles and their variables, and the category
    registry. Profiles and categories belong to the application shell; the screen
    hands every change back whole, so here they are fields the methods reassign. */
module Settings {
  import opened Wrappers
  import opened Strings
  import opened Replacing
  import opened Types
  import opened Filtering
  import App

  // ---------------------------------------------------------------- variable keys

  /** The pattern `/\s+/g` with replacement `_`: a whole run of whitespace becomes one
      underscore. */
  function UnderscoreRule(): Rule {
    t => if WsRun(t) > 0 then Some(Hit(WsRun(t), "_")) else None
  }

  lemma UnderscoreRuleConsumes()
    ensures Consumes(UnderscoreRule())
  {
  }

  /** `t.replace(/\s+/g, '_')`. */
  function Collapse(t: string): string {
    UnderscoreRuleConsumes();
    ReplaceAll(t, UnderscoreRule())
  }

  /** `newVarKey.trim().toUpperCase().replace(/\s+/g, '_')`. */
  function SanitizeKey(s: string): string {
    Collapse(Upper(Trim(s)))
  }

  /** Every character of the replaced text is an underscore or a character of the input
      that is not whitespace, and the text is empty only when the input is. */
  lemma {:induction false} RunsCollapsed(t: string)
    ensures var r := Collapse(t);
      && (r == [] <==> t == [])
      && forall i | 0 <= i < |r| :: r[i] == '_' || (r[i] in t && !IsWhitespace(r[i]))
    decreases |t|
  {
    UnderscoreRuleConsumes();
    var rule := UnderscoreRule();
    if t != [] {
      var r := ReplaceAll(t, rule);
      match rule(t)
      case Some(h) =>
        var rest := ReplaceAll(t[h.len..], rule);
        assert r == "_" + rest;
        RunsCollapsed(t[h.len..]);
        forall i | 0 <= i < |r| ensures r[i] == '_' || (r[i] in t && !IsWhitespace(r[i])) {
          if i > 0 {
            assert r[i] == rest[i - 1];
            if rest[i - 1] != '_' {
              assert rest[i - 1] in t[h.len..];
            }
          }
        }
      case None =>
        var rest := ReplaceAll(t[1..], rule);
        assert r == [t[0]] + rest;
        RunsCollapsed(t[1..]);
        forall i | 0 <= i < |r| ensures r[i] == '_' || (r[i] in t && !IsWhitespace(r[i])) {
          if i > 0 {
            assert r[i] == rest[i - 1];
            if rest[i - 1] != '_' {
              assert rest[i - 1] in t[1..];
            }
          }
        }
    }
  }

  /** Text without whitespace has nothing to replace. */
  lemma NoRunsKept(t: string)
    requires forall i | 0 <= i < |t| :: !IsWhitespace(t[i])
    ensures Collapse(t) == t
  {
    UnderscoreRuleConsumes();
    forall i | 0 <= i < |t| ensures UnderscoreRule()(t[i..]).None? {
      assert t[i..][0] == t[i];
    }
    NoHitKeeps(t, UnderscoreRule());
  }

  /** A sanitised key holds no whitespace and no lower-case ASCII letter, and it is empty
      exactly when the typed key is blank. */
  lemma SanitizedKeyShape(s: string)
    ensures var k := SanitizeKey(s);
      && (k == [] <==> IsBlank(s))
      && forall i | 0 <= i < |k| :: !IsWhitespace(k[i]) && UpperChar(k[i]) == k[i]
  {
    var u := Upper(Trim(s));
    RunsCollapsed(u);
    UpperIsFixed(Trim(s));
    TrimEmptyIffBlank(s);
    var k := SanitizeKey(s);
    forall i | 0 <= i < |k| ensures !IsWhitespace(k[i]) && UpperChar(k[i]) == k[i] {
      if k[i] != '_' {
        assert k[i] in u;
      }
    }
  }

  /** Upper-casing a string gives characters upper-casing leaves alone. */
  lemma UpperIsFixed(x: string)
    ensures forall c | c in Upper(x) :: UpperChar(c) == c
  {
  }

  /** Sanitising a sanitised key leaves it as it is. */
  lemma SanitizeKeyIdempotent(s: string)
    ensures SanitizeKey(SanitizeKey(s)) == SanitizeKey(s)
  {
    var k := SanitizeKey(s);
    SanitizedKeyShape(s);
    TrimKeepsTrimmed(k);
    assert Upper(k) == k;
    NoRunsKept(k);
  }

  // ---------------------------------------------------------------- a profile's variables

  predicate HasKey(vars: Vars, key: string) {
    exists i | 0 <= i < |vars| :: vars[i].0 == key
  }

  /** `vars[key]`, `undefined` being `None`. */
  function Lookup(vars: Vars, key: string): (r: Option<string>)
    ensures r.None? <==> !HasKey(vars, key)
    ensures r.Some? ==> (key, r.value) in vars
  {
    if vars == [] then None
    else if vars[0].0 == key then Some(vars[0].1)
    else
      var r := Lookup(vars[1..], key);
      assert HasKey(vars, key) <==> HasKey(vars[1..], key) by {
        if HasKey(vars, key) {
          var i :| 0 <= i < |vars| && vars[i].0 == key;
          assert vars[1..][i - 1] == vars[i];
        }
        if HasKey(vars[1..], key) {
          var i :| 0 <= i < |vars[1..]| && vars[1..][i].0 == key;
          assert vars[i + 1] == vars[1..][i];
        }
      }
      r
  }

  /** A JavaScript object cannot hold a key twice. */
  predicate DistinctKeys(vars: Vars) {
    forall i, j | 0 <= i < j < |vars| :: vars[i].0 != vars[j].0
  }

  /** `{ ...vars, [key]: value }`: an existing key keeps its place and takes the value; a
      new key goes last. */
  function SetVar(vars: Vars, key: string, value: string): (r: Vars)
    ensures HasKey(vars, key) ==> |r| == |vars| && forall i {:trigger r[i]} | 0 <= i < |r| :: r[i].0 == vars[i].0
    ensures !HasKey(vars, key) ==> r == vars + [(key, value)]
  {
    if vars == [] then [(key, value)]
    else if vars[0].0 == key then [(key, value)] + vars[1..]
    else
      var rest := SetVar(vars[1..], key, value);
      assert HasKey(vars, key) ==> HasKey(vars[1..], key) by {
        if HasKey(vars, key) {
          var i :| 0 <= i < |vars| && vars[i].0 == key;
          assert vars[1..][i - 1] == vars[i];
        }
      }
      assert !HasKey(vars, key) ==> !HasKey(vars[1..], key) by {
        if HasKey(vars[1..], key) {
          var i :| 0 <= i < |vars[1..]| && vars[1..][i].0 == key;
          assert vars[i + 1] == vars[1..][i];
        }
      }
      [vars[0]] + rest
  }

  /** After setting, the key reads back the value and every other key reads what it read. */
  lemma {:induction false} SetVarReadsBack(vars: Vars, key: string, value: string, other: string)
    ensures Lookup(SetVar(vars, key, value), key) == Some(value)
    ensures other != key ==> Lookup(SetVar(vars, key, value), other) == Lookup(vars, other)
  {
    if vars != [] && vars[0].0 != key {
      SetVarReadsBack(vars[1..], key, value, other);
      assert SetVar(vars, key, value)[1..] == SetVar(vars[1..], key, value);
    }
  }

  /** Setting a key keeps the keys distinct. */
  lemma SetVarKeepsDistinct(vars: Vars, key: string, value: string)
    requires DistinctKeys(vars)
    ensures DistinctKeys(SetVar(vars, key, value))
  {
    var r := SetVar(vars, key, value);
    if !HasKey(vars, key) {
      forall i, j | 0 <= i < j < |r| ensures r[i].0 != r[j].0 {
        if j == |vars| {
          assert r[i] == vars[i];
        }
      }
    }
  }

  /** `delete vars[key]`. */
  function RemoveVar(vars: Vars, key: string): Vars {
    Filter(vars, (e: (string, string)) => e.0 != key)
  }

  /** After deleting, the key is gone, every other key reads what it read, and the keys
      stay distinct. */
  lemma {:induction false} RemoveVarRemoves(vars: Vars, key: string, other: string)
    ensures !HasKey(RemoveVar(vars, key), key)
    ensures other != key ==> Lookup(RemoveVar(vars, key), other) == Lookup(vars, other)
  {
    var p := (e: (string, string)) => e.0 != key;
    if vars != [] {
      RemoveVarRemoves(vars[1..], key, other);
      assert RemoveVar(vars, key) == (if p(vars[0]) then [vars[0]] else []) + RemoveVar(vars[1..], key);
      var r := RemoveVar(vars, key);
      if p(vars[0]) {
        assert r[0] == vars[0] && r[1..] == RemoveVar(vars[1..], key);
        if other != key && vars[0].0 != other {
          assert Lookup(r, other) == Lookup(r[1..], other);
        }
      } else {
        assert r == RemoveVar(vars[1..], key);
      }
    }
  }

  lemma RemoveVarKeepsDistinct(vars: Vars, key: string)
    requires DistinctKeys(vars)
    ensures DistinctKeys(RemoveVar(vars, key))
  {
    KeptInOrder(vars, (e: (string, string)) => e.0 != key);
  }

  /** Filtering keeps a subsequence: its positions grow with the positions it came from. */
  lemma {:induction false} KeptInOrder(vars: Vars, p: ((string, string)) -> bool)
    requires DistinctKeys(vars)
    ensures DistinctKeys(Filter(vars, p))
  {
    if vars != [] {
      var rest := Filter(vars[1..], p);
      assert DistinctKeys(vars[1..]) by {
        forall i, j | 0 <= i < j < |vars[1..]| ensures vars[1..][i].0 != vars[1..][j].0 {
          assert vars[1..][i] == vars[i + 1] && vars[1..][j] == vars[j + 1];
        }
      }
      KeptInOrder(vars[1..], p);
      if p(vars[0]) {
        var r := [vars[0]] + rest;
        forall j | 0 < j < |r| ensures r[0].0 != r[j].0 {
          assert r[j] == rest[j - 1];
          assert r[j] in vars[1..];
          var k :| 0 <= k < |vars[1..]| && vars[1..][k] == r[j];
          assert vars[k + 1] == r[j];
        }
      }
    }
  }

  // ---------------------------------------------------------------- profiles

  datatype ProfileUpdate = Rename(profileName: string) | Revars(variables: Vars)

  function Updated(p: VariableProfile, u: ProfileUpdate): VariableProfile {
    match u
    case Rename(n) => p.(profileName := n)
    case Revars(v) => p.(variables := v)
  }

  /** `updateProfile`: `profiles.map(p => p.id === id ? { ...p, ...updates } : p)`. */
  function UpdateProfiles(profiles: seq<VariableProfile>, id: string, u: ProfileUpdate): (r: seq<VariableProfile>)
    ensures |r| == |profiles|
    ensures forall i {:trigger r[i]} | 0 <= i < |r| :: r[i].id == profiles[i].id
  {
    seq(|profiles|, i requires 0 <= i < |profiles| =>
      if profiles[i].id == id then Updated(profiles[i], u) else profiles[i])
  }

  /** `profiles.find(p => p.id === id)`. */
  function FindProfile(profiles: seq<VariableProfile>, id: string): (r: Option<VariableProfile>)
    ensures r.Some? ==> r.value in profiles && r.value.id == id
    ensures r.None? <==> forall p | p in profiles :: p.id != id
  {
    if profiles == [] then None
    else if profiles[0].id == id then Some(profiles[0])
    else FindProfile(profiles[1..], id)
  }

  /** What `updateProfile` changes: a rename sets the name of the profiles with the id
      and keeps their variables, new variables replace theirs and keep their name, and
      every other profile stays as it was; with no such profile nothing changes. */
  lemma UpdateProfilesEffect(profiles: seq<VariableProfile>, id: string, u: ProfileUpdate)
    ensures var r := UpdateProfiles(profiles, id, u);
      forall i | 0 <= i < |r| ::
        if profiles[i].id == id then
          && (u.Rename? ==> r[i].profileName == u.profileName && r[i].variables == profiles[i].variables)
          && (u.Revars? ==> r[i].variables == u.variables && r[i].profileName == profiles[i].profileName)
        else r[i] == profiles[i]
    ensures (forall p | p in profiles :: p.id != id) ==> UpdateProfiles(profiles, id, u) == profiles
  {
  }

  /** Looking the profile up after an update finds it updated. */
  lemma {:induction false} UpdatedReadBack(profiles: seq<VariableProfile>, id: string, u: ProfileUpdate)
    ensures var before := FindProfile(profiles, id);
      FindProfile(UpdateProfiles(profiles, id, u), id) == if before.None? then None else Some(Updated(before.value, u))
  {
    if profiles != [] {
      var r := UpdateProfiles(profiles, id, u);
      assert r[1..] == UpdateProfiles(profiles[1..], id, u);
      UpdatedReadBack(profiles[1..], id, u);
    }
  }

  /** A renamed profile reads back with the new name, and with new variables it reads
      back with those. */
  lemma RenameReadBack(profiles: seq<VariableProfile>, id: string, name: string, vars: Vars)
    requires exists p | p in profiles :: p.id == id
    ensures var r := FindProfile(UpdateProfiles(profiles, id, Rename(name)), id);
      r.Some? && r.value.profileName == name
    ensures var r := FindProfile(UpdateProfiles(profiles, id, Revars(vars)), id);
      r.Some? && r.value.variables == vars
  {
    UpdatedReadBack(profiles, id, Rename(name));
    UpdatedReadBack(profiles, id, Revars(vars));
  }

  /** `find` returns the first profile with the id, whatever profiles with the same id
      follow it. */
  lemma {:induction false} FindProfileFirst(profiles: seq<VariableProfile>, id: string, k: nat)
    requires k < |profiles| && profiles[k].id == id
    requires forall j | 0 <= j < k :: profiles[j].id != id
    ensures FindProfile(profiles, id) == Some(profiles[k])
  {
    if k > 0 {
      assert forall j | 0 <= j < k - 1 :: profiles[1..][j] == profiles[j + 1];
      FindProfileFirst(profiles[1..], id, k - 1);
    }
  }

  /** `profiles[0]?.id || null`. */
  function FirstId(profiles: seq<VariableProfile>): Option<string> {
    if profiles == [] || profiles[0].id == [] then None else Some(profiles[0].id)
  }

  function WithoutProfile(profiles: seq<VariableProfile>, id: string): seq<VariableProfile> {
    Filter(profiles, (p: VariableProfile) => p.id != id)
  }

  predicate DistinctProfileIds(profiles: seq<VariableProfile>) {
    forall i, j | 0 <= i < j < |profiles| :: profiles[i].id != profiles[j].id
  }

  /** Every profile's variables have distinct keys. */
  predicate KeysDistinct(profiles: seq<VariableProfile>) {
    forall i | 0 <= i < |profiles| :: DistinctKeys(profiles[i].variables)
  }

  /** Deleting one of at least two profiles with distinct ids removes it and keeps a
      profile, so the screen always has one to select. */
  lemma DeleteKeepsOne(profiles: seq<VariableProfile>, id: string)
    requires |profiles| >= 2 && DistinctProfileIds(profiles)
    ensures |WithoutProfile(profiles, id)| >= 1
    ensures forall p | p in WithoutProfile(profiles, id) :: p.id != id
  {
    var p := (x: VariableProfile) => x.id != id;
    var k := if profiles[0].id != id then 0 else 1;
    FilterMembers(profiles, p, profiles[k]);
  }

  /** An update that writes distinct keys keeps every profile's keys distinct. */
  lemma UpdateKeepsKeysDistinct(profiles: seq<VariableProfile>, id: string, u: ProfileUpdate)
    requires KeysDistinct(profiles)
    requires u.Revars? ==> DistinctKeys(u.variables)
    ensures KeysDistinct(UpdateProfiles(profiles, id, u))
  {
  }

  lemma WithoutKeepsKeysDistinct(profiles: seq<VariableProfile>, id: string)
    requires KeysDistinct(profiles)
    ensures KeysDistinct(WithoutProfile(profiles, id))
  {
    var r := WithoutProfile(profiles, id);
    forall i | 0 <= i < |r| ensures DistinctKeys(r[i].variables) {
      assert r[i] in profiles;
    }
  }

  const NewProfileName: string := "新公司設定"

  /** The profile `handleAddProfile` creates; `stamp` is `Date.now()`. */
  function NewProfile(stamp: string): VariableProfile {
    VariableProfile("profile-" + stamp, NewProfileName, [("COMPANY_NAME", "新公司名稱")])
  }

  // ---------------------------------------------------------------- categories

  /** The category `handleAddCategory` creates: the name as typed, blue, custom. */
  function NewCategory(name: string, stamp: string): CategoryDef {
    CategoryDef("cat-" + stamp, name, Blue, Custom)
  }

  /** Only custom categories show a delete button. */
  predicate OffersDelete(cat: CategoryDef) {
    cat.kind == Custom
  }

  /** The built-in categories cannot be deleted from the screen; every added one can. */
  lemma BuiltInCategoriesStay(name: string, stamp: string)
    ensures forall c | c in App.SeedCategories :: !OffersDelete(c)
    ensures OffersDelete(NewCategory(name, stamp))
  {
  }

  // ---------------------------------------------------------------- the screen

  class SettingsScreen {
    var categories: seq<CategoryDef>
    var profiles: seq<VariableProfile>
    var selectedProfileId: Option<string>
    var newCatName: string
    var isAddingVar: bool
    var newVarKey: string

    /** Every profile's keys stay distinct. */
    ghost predicate Valid()
      reads this
    {
      KeysDistinct(profiles)
    }

    constructor(categories: seq<CategoryDef>, profiles: seq<VariableProfile>)
      requires KeysDistinct(profiles)
      ensures Valid()
      ensures this.categories == categories && this.profiles == profiles
      ensures selectedProfileId == FirstId(profiles)
      ensures newCatName == [] && !isAddingVar && newVarKey == []
    {
      this.categories := categories;
      this.profiles := profiles;
      selectedProfileId := FirstId(profiles);
      newCatName := [];
      isAddingVar := false;
      newVarKey := [];
    }

    /** `handleAddCategory`: a name that is not blank becomes a new custom category and
        the input is cleared. */
    method AddCategory(stamp: string)
      modifies this
      ensures IsBlank(old(newCatName)) ==> categories == old(categories) && newCatName == old(newCatName)
      ensures !IsBlank(old(newCatName)) ==>
        categories == old(categories) + [NewCategory(old(newCatName), stamp)] && newCatName == []
      ensures profiles == old(profiles) && selectedProfileId == old(selectedProfileId)
      ensures isAddingVar == old(isAddingVar) && newVarKey == old(newVarKey)
    {
      TrimEmptyIffBlank(newCatName);
      if Trim(newCatName) == [] {
        return;
      }
      categories := categories + [NewCategory(newCatName, stamp)];
      newCatName := [];
    }

    /** `handleAddProfile`: the new profile is appended and selected. */
    method AddProfile(stamp: string)
      requires Valid()
      modifies this
      ensures Valid()
      ensures profiles == old(profiles) + [NewProfile(stamp)]
      ensures selectedProfileId == Some("profile-" + stamp)
      ensures categories == old(categories) && newCatName == old(newCatName)
      ensures isAddingVar == old(isAddingVar) && newVarKey == old(newVarKey)
    {
      profiles := profiles + [NewProfile(stamp)];
      selectedProfileId := Some("profile-" + stamp);
    }

    /** `handleDeleteProfile`: refused while only one profile is left; otherwise the
        profile goes and the first remaining one is selected. */
    method DeleteProfile(id: string)
      requires Valid()
      modifies this
      ensures Valid()
      ensures |old(profiles)| <= 1 ==> profiles == old(profiles) && selectedProfileId == old(selectedProfileId)
      ensures |old(profiles)| > 1 ==>
        profiles == WithoutProfile(old(profiles), id) && selectedProfileId == FirstId(profiles)
      ensures categories == old(categories) && newCatName == old(newCatName)
      ensures isAddingVar == old(isAddingVar) && newVarKey == old(newVarKey)
    {
      if |profiles| <= 1 {
        return;
      }
      WithoutKeepsKeysDistinct(profiles, id);
      profiles := WithoutProfile(profiles, id);
      selectedProfileId := FirstId(profiles);
    }

    /** `updateProfile`, as the name input calls it. */
    method RenameProfile(id: string, name: string)
      requires Valid()
      modifies this
      ensures Valid()
      ensures profiles == UpdateProfiles(old(profiles), id, Rename(name))
      ensures categories == old(categories) && newCatName == old(newCatName) && selectedProfileId == old(selectedProfileId)
      ensures isAddingVar == old(isAddingVar) && newVarKey == old(newVarKey)
    {
      UpdateKeepsKeysDistinct(profiles, id, Rename(name));
      profiles := UpdateProfiles(profiles, id, Rename(name));
    }

    /** `submitNewVar`: a key that is not blank, for a selected profile that exists, is
        sanitised and added with an empty value unless the profile already has it; on
        success the input is cleared and closed. */
    method SubmitNewVar()
      requires Valid()
      modifies this
      ensures Valid()
      ensures var key := SanitizeKey(old(newVarKey));
        var p := if old(selectedProfileId).Some? then FindProfile(old(profiles), old(selectedProfileId).value) else None;
        if IsBlank(old(newVarKey)) || old(selectedProfileId).None? || old(selectedProfileId).value == []
          || p.None? || HasKey(p.value.variables, key) then
          && profiles == old(profiles) && newVarKey == old(newVarKey) && isAddingVar == old(isAddingVar)
        else
          && profiles == UpdateProfiles(old(profiles), p.value.id, Revars(p.value.variables + [(key, "")]))
          && newVarKey == [] && !isAddingVar
      ensures categories == old(categories) && newCatName == old(newCatName) && selectedProfileId == old(selectedProfileId)
    {
      TrimEmptyIffBlank(newVarKey);
      if Trim(newVarKey) == [] || selectedProfileId.None? || selectedProfileId.value == [] {
        return;
      }
      var key := SanitizeKey(newVarKey);
      var profile := FindProfile(profiles, selectedProfileId.value);
      if profile.None? || HasKey(profile.value.variables, key) {
        return;
      }
      var vars := SetVar(profile.value.variables, key, "");
      SetVarKeepsDistinct(profile.value.variables, key, "");
      UpdateKeepsKeysDistinct(profiles, selectedProfileId.value, Revars(vars));
      profiles := UpdateProfiles(profiles, selectedProfileId.value, Revars(vars));
      newVarKey := [];
      isAddingVar := false;
    }

    /** The value input of a variable of the selected profile. */
    method SetValue(key: string, value: string)
      requires Valid()
      modifies this
      ensures Valid()
      ensures var p := if old(selectedProfileId).Some? then FindProfile(old(profiles), old(selectedProfileId).value) else None;
        profiles == if p.None? then old(profiles) else UpdateProfiles(old(profiles), p.value.id, Revars(SetVar(p.value.variables, key, value)))
      ensures categories == old(categories) && newCatName == old(newCatName) && selectedProfileId == old(selectedProfileId)
      ensures isAddingVar == old(isAddingVar) && newVarKey == old(newVarKey)
    {
      if selectedProfileId.None? {
        return;
      }
      var profile := FindProfile(profiles, selectedProfileId.value);
      if profile.Some? {
        var i :| 0 <= i < |profiles| && profiles[i] == profile.value;
        SetVarKeepsDistinct(profile.value.variables, key, value);
        var vars := SetVar(profile.value.variables, key, value);
        UpdateKeepsKeysDistinct(profiles, profile.value.id, Revars(vars));
        profiles := UpdateProfiles(profiles, profile.value.id, Revars(vars));
      }
    }

    /** `handleRemoveVar`. */
    method RemoveVariable(profileId: string, key: string)
      requires Valid()
      modifies this
      ensures Valid()
      ensures var p := FindProfile(old(profiles), profileId);
        profiles == if p.None? then old(profiles) else UpdateProfiles(old(profiles), profileId, Revars(RemoveVar(p.value.variables, key)))
      ensures categories == old(categories) && newCatName == old(newCatName) && selectedProfileId == old(selectedProfileId)
      ensures isAddingVar == old(isAddingVar) && newVarKey == old(newVarKey)
    {
      var profile := FindProfile(profiles, profileId);
      if profile.Some? {
        var i :| 0 <= i < |profiles| && profiles[i] == profile.value;
        RemoveVarKeepsDistinct(profile.value.variables, key);
        var vars := RemoveVar(profile.value.variables, key);
        UpdateKeepsKeysDistinct(profiles, profileId, Revars(vars));
        profiles := UpdateProfiles(profiles, profileId, Revars(vars));
      }
    }

    /** A click in the profile list. */
    method SelectProfile(id: string)
      modifies this
      ensures selectedProfileId == Some(id)
      ensures profiles == old(profiles) && categories == old(categories) && newCatName == old(newCatName)
      ensures isAddingVar == old(isAddingVar) && newVarKey == old(newVarKey)
    {
      selectedProfileId := Some(id);
    }

    /** The key input, with the buttons that open and close it. */
    method EditNewVar(key: string, open: bool)
      modifies this
      ensures newVarKey == key && isAddingVar == open
      ensures profiles == old(profiles) && categories == old(categories) && newCatName == old(newCatName)
      ensures selectedProfileId == old(selectedProfileId)
    {
      newVarKey := key;
      isAddingVar := open;
    }

    /** The category name input. */
    method EditNewCategory(name: string)
      modifies this
      ensures newCatName == name
      ensures profiles == old(profiles) && categories == old(categories) && selectedProfileId == old(selectedProfileId)
      ensures isAddingVar == old(isAddingVar) && newVarKey == old(newVarKey)
    {
      newCatName := name;
    }
  }
}
