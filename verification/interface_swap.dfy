/**
 * `interfaces=` of the cobblersystem provider. Cobbler refuses to delete the last interface of a
 * system, so the swap adds a temporary one, deletes the old ones, creates the new ones, and finally
 * deletes the temporary one.
 */
module InterfaceSwap {
  import opened Strings
  import opened Wrappers

  /** The settings of an interface. */
  datatype Settings = Settings(values: map<string, string>)

  const NOTHING := Settings(map[])

  /** The settings of the temporary interface. */
  const STATIC := Settings(map["static" := "true"])

  function With(s: Settings, setting: string, val: string): Settings {
    Settings(s.values[setting := val])
  }

  type Interfaces = map<string, Settings>

  /** A setting in the manifest: nil, a scalar or an array. */
  datatype Setting = Nil | Text(text: string) | Words(words: seq<string>)

  /** An interface with its settings, in the order of the Ruby hash. */
  datatype Entry = Entry(iface: string, settings: seq<(string, Setting)>)

  datatype Cmd = Set(iface: string, setting: string, val: string) | Delete(iface: string) | Sync

  /** What Cobbler does to the system's interfaces; Err is a refusal, with the interfaces as they are. */
  function Exec(ifaces: Interfaces, c: Cmd): Result<Interfaces, Interfaces> {
    match c
    case Set(iface, setting, val) =>
      Ok(ifaces[iface := With(if iface in ifaces then ifaces[iface] else NOTHING, setting, val)])
    case Delete(iface) =>
      if iface !in ifaces then Ok(ifaces)
      else if |ifaces| == 1 then Err(ifaces)
      else Ok(ifaces - {iface})
    case Sync => Ok(ifaces)
  }

  /** A refusal raises in the provider, so nothing runs after it. */
  function Run(ifaces: Interfaces, cmds: seq<Cmd>): Result<Interfaces, Interfaces>
    decreases cmds
  {
    if cmds == [] then Ok(ifaces)
    else
      match Exec(ifaces, cmds[0])
      case Err(m) => Err(m)
      case Ok(m) => Run(m, cmds[1..])
  }

  lemma {:induction false} RunAppend(ifaces: Interfaces, a: seq<Cmd>, b: seq<Cmd>)
    ensures Run(ifaces, a + b) ==
      match Run(ifaces, a) case Err(m) => Err(m) case Ok(m) => Run(m, b)
    decreases a
  {
    if a == [] {
      assert a + b == b;
    } else {
      assert (a + b)[1..] == a[1..] + b;
      if Exec(ifaces, a[0]).Ok? {
        RunAppend(Exec(ifaces, a[0]).value, a[1..], b);
      }
    }
  }

  lemma RunOne(ifaces: Interfaces, c: Cmd)
    ensures Run(ifaces, [c]) == Exec(ifaces, c)
  {
    assert [c][1..] == [];
  }

  // ---------- the commands of a swap ----------

  /** `key.gsub(/_/, '-')` */
  function Dashed(key: string): (r: string)
    ensures |r| == |key| && forall i | 0 <= i < |key| :: r[i] == if key[i] == '_' then '-' else key[i]
  {
    seq(|key|, i requires 0 <= i < |key| => if key[i] == '_' then '-' else key[i])
  }

  function Shown(s: Setting): string {
    match s
    case Nil => "''"
    case Text(text) => text
    case Words(words) => Join(words, " ")
  }

  function DeleteCmds(names: seq<string>): seq<Cmd> {
    if names == [] then [] else DeleteCmds(names[..|names| - 1]) + [Delete(names[|names| - 1]), Sync]
  }

  function SettingCmds(iface: string, settings: seq<(string, Setting)>): seq<Cmd> {
    if settings == [] then []
    else
      var last := settings[|settings| - 1];
      SettingCmds(iface, settings[..|settings| - 1]) + [Set(iface, Dashed(last.0), Shown(last.1))]
  }

  function CreateCmds(value: seq<Entry>): seq<Cmd> {
    if value == [] then []
    else
      CreateCmds(value[..|value| - 1]) + SettingCmds(value[|value| - 1].iface, value[|value| - 1].settings)
  }

  function SwapCmds(snapshot: seq<string>, value: seq<Entry>, temp: string): seq<Cmd> {
    [Set(temp, "static", "true")] + (DeleteCmds(snapshot) + (CreateCmds(value) + [Delete(temp), Sync]))
  }

  // ---------- the provider ----------

  /** `ifaces` is the system's record in Cobbler, `interfaces` the entry of `@property_hash`. */
  class SystemProvider {
    var ifaces: Interfaces
    var interfaces: seq<Entry>

    constructor (ifaces: Interfaces, interfaces: seq<Entry>)
      ensures this.ifaces == ifaces && this.interfaces == interfaces
    {
      this.ifaces, this.interfaces := ifaces, interfaces;
    }

    method Cobbler(c: Cmd) returns (ok: bool)
      modifies this`ifaces
      ensures ok == Exec(old(ifaces), c).Ok?
      ensures ifaces == if ok then Exec(old(ifaces), c).value else old(ifaces)
    {
      match c {
        case Set(iface, setting, val) =>
          var known := if iface in ifaces then ifaces[iface] else NOTHING;
          ifaces := ifaces[iface := With(known, setting, val)];
          ok := true;
        case Delete(iface) =>
          ok := iface !in ifaces || |ifaces| != 1;
          if iface in ifaces && ok {
            ifaces := ifaces - {iface};
          }
        case Sync => ok := true;
      }
    }

    /** Deletes the interfaces of the snapshot, one by one. */
    method DeleteAll(snapshot: seq<string>) returns (ok: bool)
      modifies this`ifaces
      ensures Run(old(ifaces), DeleteCmds(snapshot)) == if ok then Ok(ifaces) else Err(ifaces)
    {
      for i := 0 to |snapshot|
        invariant Run(old(ifaces), DeleteCmds(snapshot[..i])) == Ok(ifaces)
      {
        assert snapshot[..i + 1][..i] == snapshot[..i];
        RunAppend(old(ifaces), DeleteCmds(snapshot[..i]), [Delete(snapshot[i]), Sync]);
        assert [Delete(snapshot[i]), Sync] == [Delete(snapshot[i])] + [Sync];
        RunAppend(ifaces, [Delete(snapshot[i])], [Sync]);
        RunOne(ifaces, Delete(snapshot[i]));
        ok := Cobbler(Delete(snapshot[i]));
        if !ok {
          RefusalStays(old(ifaces), snapshot, i + 1);
          return;
        }
        RunOne(ifaces, Sync);
        ok := Cobbler(Sync);
      }
      assert snapshot[..|snapshot|] == snapshot;
      ok := true;
    }

    /** Creates the interfaces of the manifest, one setting at a time. */
    method CreateAll(value: seq<Entry>)
      modifies this`ifaces
      ensures Run(old(ifaces), CreateCmds(value)) == Ok(ifaces)
    {
      for i := 0 to |value|
        invariant Run(old(ifaces), CreateCmds(value[..i])) == Ok(ifaces)
      {
        assert value[..i + 1][..i] == value[..i];
        ghost var before := ifaces;
        var Entry(iface, settings) := value[i];
        for j := 0 to |settings|
          invariant Run(before, SettingCmds(iface, settings[..j])) == Ok(ifaces)
        {
          assert settings[..j + 1][..j] == settings[..j];
          var (key, val) := settings[j];
          RunAppend(before, SettingCmds(iface, settings[..j]), [Set(iface, Dashed(key), Shown(val))]);
          var setting := Dashed(key);
          if val != Nil {
            var shown := if val.Words? then Join(val.words, " ") else val.text;
            RunOne(ifaces, Set(iface, setting, shown));
            var _ := Cobbler(Set(iface, setting, shown));
          } else {
            RunOne(ifaces, Set(iface, setting, "''"));
            var _ := Cobbler(Set(iface, setting, "''"));
          }
        }
        assert settings[..|settings|] == settings;
        RunAppend(old(ifaces), CreateCmds(value[..i]), SettingCmds(iface, settings));
      }
      assert value[..|value|] == value;
    }

    /** `interfaces=`; the snapshot names the interfaces the system has at the start. */
    method SetInterfaces(snapshot: seq<string>, value: seq<Entry>, temp: string) returns (ok: bool)
      requires Names(snapshot, ifaces)
      modifies this
      ensures Run(old(ifaces), SwapCmds(snapshot, value, temp)) == if ok then Ok(ifaces) else Err(ifaces)
      ensures interfaces == if ok then value else old(interfaces)
    {
      var first := Set(temp, "static", "true");
      var last := [Delete(temp), Sync];
      RunAppend(ifaces, [first], DeleteCmds(snapshot) + (CreateCmds(value) + last));
      RunOne(ifaces, first);
      var _ := Cobbler(first);
      RunAppend(ifaces, DeleteCmds(snapshot), CreateCmds(value) + last);
      ok := DeleteAll(snapshot);
      if !ok {
        return;
      }
      RunAppend(ifaces, CreateCmds(value), last);
      CreateAll(value);
      assert last == [Delete(temp)] + [Sync];
      RunAppend(ifaces, [Delete(temp)], [Sync]);
      RunOne(ifaces, Delete(temp));
      ok := Cobbler(Delete(temp));
      if !ok {
        return;
      }
      RunOne(ifaces, Sync);
      ok := Cobbler(Sync);
      interfaces := value;
    }
  }

  lemma {:induction false} RefusalStays(ifaces: Interfaces, snapshot: seq<string>, i: nat)
    requires i <= |snapshot| && Run(ifaces, DeleteCmds(snapshot[..i])).Err?
    ensures Run(ifaces, DeleteCmds(snapshot)) == Run(ifaces, DeleteCmds(snapshot[..i]))
  {
    if i < |snapshot| {
      var n := |snapshot| - 1;
      assert snapshot[..n][..i] == snapshot[..i];
      RefusalStays(ifaces, snapshot[..n], i);
      RunAppend(ifaces, DeleteCmds(snapshot[..n]), [Delete(snapshot[n]), Sync]);
    } else {
      assert snapshot[..i] == snapshot;
    }
  }

  /** The names of the interfaces, each once. */
  ghost predicate Names(names: seq<string>, ifaces: Interfaces) {
    && (forall n :: n in names <==> n in ifaces)
    && (forall i, j | 0 <= i < j < |names| :: names[i] != names[j])
  }

  // ---------- what the manifest asks for ----------

  ghost predicate NoEntry(value: seq<Entry>, iface: string) {
    forall e | e in value :: e.iface != iface
  }

  ghost predicate DistinctSettings(settings: seq<(string, Setting)>) {
    forall i, j | 0 <= i < j < |settings| :: Dashed(settings[i].0) != Dashed(settings[j].0)
  }

  /** The keys of a Ruby hash are distinct, here also after replacing the underscores. */
  ghost predicate WellFormed(value: seq<Entry>) {
    && (forall i, j | 0 <= i < j < |value| :: value[i].iface != value[j].iface)
    && (forall e | e in value :: DistinctSettings(e.settings))
  }

  /** The interfaces are those of the entries that have a setting, and hold exactly the settings asked for. */
  ghost predicate IsDesired(ifaces: Interfaces, value: seq<Entry>) {
    && (forall n :: n in ifaces <==> exists e | e in value :: e.iface == n && e.settings != [])
    && (forall e | e in value && e.settings != [] :: HasSettings(ifaces[e.iface], e.settings))
  }

  ghost predicate HasSettings(have: Settings, want: seq<(string, Setting)>) {
    && (forall k :: k in have.values <==> exists s | s in want :: Dashed(s.0) == k)
    && (forall s | s in want :: Gives(have.values[Dashed(s.0)], s.1))
  }

  /** What Cobbler is given for a setting: two quotes for nil, the text, or the words joined by blanks. */
  predicate Gives(val: string, s: Setting) {
    match s
    case Nil => val == "''"
    case Text(text) => val == text
    case Words(words) => val == Join(words, " ")
  }

  lemma SubsetSize<T>(a: set<T>, b: set<T>)
    requires a <= b
    ensures |a| <= |b|
  {
    assert b == a + (b - a);
  }

  lemma DeleteAccepted(ifaces: Interfaces, name: string, other: string)
    requires name in ifaces && other in ifaces && name != other
    ensures Exec(ifaces, Delete(name)) == Ok(ifaces - {name})
  {
    assert |{name, other}| == 2;
    SubsetSize({name, other}, ifaces.Keys);
  }

  lemma RunTwo(ifaces: Interfaces, a: Cmd, b: Cmd)
    ensures Run(ifaces, [a, b]) == match Exec(ifaces, a) case Err(m) => Err(m) case Ok(m) => Exec(m, b)
  {
    assert [a, b][1..] == [b];
    if Exec(ifaces, a).Ok? {
      RunOne(Exec(ifaces, a).value, b);
    }
  }

  /** Deleting an interface beside which there is another one. */
  lemma DeleteRuns(ifaces: Interfaces, name: string, other: string)
    requires name in ifaces && other in ifaces && name != other
    ensures Run(ifaces, [Delete(name), Sync]) == Ok(ifaces - {name})
  {
    RunTwo(ifaces, Delete(name), Sync);
    DeleteAccepted(ifaces, name, other);
  }

  /** Deleting the last interface. */
  lemma DeleteRefused(ifaces: Interfaces, name: string)
    requires ifaces.Keys == {name}
    ensures Run(ifaces, [Delete(name), Sync]) == Err(ifaces)
  {
    RunTwo(ifaces, Delete(name), Sync);
  }

  function Without(ifaces: Interfaces, names: seq<string>): (r: Interfaces)
    ensures forall n :: n in r <==> n in ifaces && n !in names
    ensures forall n | n in r :: r[n] == ifaces[n]
  {
    map n | n in ifaces && n !in names :: ifaces[n]
  }

  lemma WithoutSnoc(ifaces: Interfaces, front: seq<string>, last: string)
    ensures Without(ifaces, front) - {last} == Without(ifaces, front + [last])
  {
  }

  lemma DeleteCmdsSnoc(front: seq<string>, last: string)
    ensures DeleteCmds(front + [last]) == DeleteCmds(front) + [Delete(last), Sync]
  {
    assert (front + [last])[..|front|] == front;
  }

  lemma OneMoreDelete(ifaces: Interfaces, front: seq<string>, last: string, temp: string)
    requires Run(ifaces, DeleteCmds(front)) == Ok(Without(ifaces, front))
    requires last in Without(ifaces, front) && temp in Without(ifaces, front) && temp != last
    ensures Run(ifaces, DeleteCmds(front + [last])) == Ok(Without(ifaces, front + [last]))
  {
    DeleteCmdsSnoc(front, last);
    RunAppend(ifaces, DeleteCmds(front), [Delete(last), Sync]);
    DeleteRuns(Without(ifaces, front), last, temp);
    WithoutSnoc(ifaces, front, last);
  }

  lemma {:induction false} DeletesRun(ifaces: Interfaces, names: seq<string>, temp: string)
    requires temp in ifaces && temp !in names
    requires forall i | 0 <= i < |names| :: names[i] in ifaces
    requires forall i, j | 0 <= i < j < |names| :: names[i] != names[j]
    ensures Run(ifaces, DeleteCmds(names)) == Ok(Without(ifaces, names))
  {
    if names == [] {
      assert Without(ifaces, names) == ifaces;
    } else {
      DeletesRun(ifaces, names[..|names| - 1], temp);
      OneMoreDelete(ifaces, names[..|names| - 1], names[|names| - 1], temp);
      assert names == names[..|names| - 1] + [names[|names| - 1]];
    }
  }

  lemma SettingAdded(have: Settings, front: seq<(string, Setting)>, last: (string, Setting))
    requires HasSettings(have, front) && forall s | s in front :: Dashed(s.0) != Dashed(last.0)
    ensures HasSettings(With(have, Dashed(last.0), Shown(last.1)), front + [last])
  {
    assert forall s :: s in front + [last] <==> s in front || s == last;
  }

  lemma SetRuns(ifaces: Interfaces, iface: string, have: Settings, s: (string, Setting), first: bool)
    requires iface !in ifaces && (first ==> have == NOTHING)
    ensures Run(if first then ifaces else ifaces[iface := have], [Set(iface, Dashed(s.0), Shown(s.1))])
            == Ok(ifaces[iface := With(have, Dashed(s.0), Shown(s.1))])
  {
    var c, more := Set(iface, Dashed(s.0), Shown(s.1)), With(have, Dashed(s.0), Shown(s.1));
    RunOne(if first then ifaces else ifaces[iface := have], c);
    assert ifaces[iface := have][iface := more] == ifaces[iface := more];
  }

  /** Setting one after another makes an interface with exactly these settings. */
  ghost predicate Makes(ifaces: Interfaces, iface: string, settings: seq<(string, Setting)>, have: Settings) {
    && Run(ifaces, SettingCmds(iface, settings)) == Ok(if settings == [] then ifaces else ifaces[iface := have])
    && HasSettings(have, settings) && (settings == [] ==> have == NOTHING)
  }

  lemma {:induction false} SettingsRun(ifaces: Interfaces, iface: string, settings: seq<(string, Setting)>)
    returns (have: Settings)
    requires iface !in ifaces && DistinctSettings(settings)
    ensures Makes(ifaces, iface, settings, have)
  {
    have := NOTHING;
    if settings != [] {
      var front, last := settings[..|settings| - 1], settings[|settings| - 1];
      assert DistinctSettings(front);
      var before := SettingsRun(ifaces, iface, front);
      assert settings == front + [last];
      have := OneMoreSetting(ifaces, iface, front, last, before);
    }
  }

  lemma OneMoreSetting(ifaces: Interfaces, iface: string, front: seq<(string, Setting)>, last: (string, Setting),
                       before: Settings) returns (have: Settings)
    requires iface !in ifaces && DistinctSettings(front + [last]) && Makes(ifaces, iface, front, before)
    ensures Makes(ifaces, iface, front + [last], have)
  {
    have := With(before, Dashed(last.0), Shown(last.1));
    assert (front + [last])[..|front|] == front;
    assert forall i | 0 <= i < |front| :: (front + [last])[i] == front[i];
    RunAppend(ifaces, SettingCmds(iface, front), [Set(iface, Dashed(last.0), Shown(last.1))]);
    SetRuns(ifaces, iface, before, last, front == []);
    forall s | s in front
      ensures Dashed(s.0) != Dashed(last.0)
    {
      var i :| 0 <= i < |front| && front[i] == s;
      assert (front + [last])[i] == s && (front + [last])[|front|] == last;
    }
    SettingAdded(before, front, last);
  }

  lemma CreateCmdsSnoc(front: seq<Entry>, last: Entry)
    ensures CreateCmds(front + [last]) == CreateCmds(front) + SettingCmds(last.iface, last.settings)
  {
    assert (front + [last])[..|front|] == front;
  }

  lemma UnionUpdate(a: Interfaces, b: Interfaces, iface: string, have: Settings)
    ensures (a + b)[iface := have] == a + b[iface := have]
  {
  }

  lemma OneMoreEntry(temps: Interfaces, front: seq<Entry>, before: Interfaces, last: Entry) returns (made: Interfaces)
    requires Run(temps, CreateCmds(front)) == Ok(temps + before)
    requires before.Keys !! temps.Keys && IsDesired(before, front)
    requires last.iface !in temps && forall e | e in front :: e.iface != last.iface
    requires DistinctSettings(last.settings)
    ensures Run(temps, CreateCmds(front + [last])) == Ok(temps + made)
    ensures made.Keys !! temps.Keys && IsDesired(made, front + [last])
  {
    CreateCmdsSnoc(front, last);
    RunAppend(temps, CreateCmds(front), SettingCmds(last.iface, last.settings));
    var have := SettingsRun(temps + before, last.iface, last.settings);
    made := if last.settings == [] then before else before[last.iface := have];
    EntryAdded(before, made, front, last);
    UnionUpdate(temps, before, last.iface, have);
  }

  /** The entries create exactly the desired interfaces beside whatever `temps` holds. */
  lemma {:induction false} CreatesRun(temps: Interfaces, value: seq<Entry>) returns (made: Interfaces)
    requires (forall n | n in temps :: NoEntry(value, n)) && WellFormed(value)
    ensures Run(temps, CreateCmds(value)) == Ok(temps + made)
    ensures made.Keys !! temps.Keys && IsDesired(made, value)
  {
    if value == [] {
      made := map[];
      assert temps + made == temps;
    } else {
      var n := |value| - 1;
      FrontWellFormed(temps, value);
      var before := CreatesRun(temps, value[..n]);
      made := LastEntry(temps, value, before);
    }
  }

  lemma LastEntry(temps: Interfaces, value: seq<Entry>, before: Interfaces) returns (made: Interfaces)
    requires value != [] && (forall n | n in temps :: NoEntry(value, n)) && WellFormed(value)
    requires Run(temps, CreateCmds(value[..|value| - 1])) == Ok(temps + before)
    requires before.Keys !! temps.Keys && IsDesired(before, value[..|value| - 1])
    ensures Run(temps, CreateCmds(value)) == Ok(temps + made)
    ensures made.Keys !! temps.Keys && IsDesired(made, value)
  {
    var front, last := value[..|value| - 1], value[|value| - 1];
    FrontWellFormed(temps, value);
    assert value == front + [last];
    made := OneMoreEntry(temps, front, before, last);
  }

  lemma FrontWellFormed(temps: Interfaces, value: seq<Entry>)
    requires value != [] && (forall n | n in temps :: NoEntry(value, n)) && WellFormed(value)
    ensures var front, last := value[..|value| - 1], value[|value| - 1];
      && (forall n | n in temps :: NoEntry(front, n)) && WellFormed(front)
      && last.iface !in temps && (forall e | e in front :: e.iface != last.iface)
      && DistinctSettings(last.settings)
  {
    var n := |value| - 1;
    assert value[n] in value && forall e | e in value[..n] :: e in value;
  }

  lemma EntryAdded(before: Interfaces, after: Interfaces, front: seq<Entry>, last: Entry)
    requires IsDesired(before, front) && (forall e | e in front :: e.iface != last.iface)
    requires if last.settings == [] then after == before
             else last.iface in after && after == before[last.iface := after[last.iface]]
                  && HasSettings(after[last.iface], last.settings)
    ensures IsDesired(after, front + [last])
  {
    assert forall e :: e in front + [last] <==> e in front || e == last;
  }

  ghost predicate SomeSetting(value: seq<Entry>) {
    exists e | e in value :: e.settings != []
  }

  /**
   * The swap: with a fresh temporary name and any old interfaces, the system ends with exactly the
   * desired interfaces if and only if some entry has a setting. Otherwise Cobbler refuses the last
   * command and the temporary interface is all that is left.
   */
  lemma SwapExact(ifaces: Interfaces, snapshot: seq<string>, value: seq<Entry>, temp: string)
    requires Names(snapshot, ifaces) && WellFormed(value)
    requires temp !in ifaces && NoEntry(value, temp)
    ensures var r := Run(ifaces, SwapCmds(snapshot, value, temp));
      if SomeSetting(value) then r.Ok? && IsDesired(r.value, value)
      else r == Err(map[temp := STATIC])
  {
    ClearedToTemp(ifaces, snapshot, temp, CreateCmds(value) + [Delete(temp), Sync]);
    var only := map[temp := STATIC];
    RunAppend(only, CreateCmds(value), [Delete(temp), Sync]);
    var made := CreatesRun(only, value);
    TempRemoved(only, made, value, temp);
  }

  /** The last phase removes the temporary interface if there is another one. */
  lemma TempRemoved(only: Interfaces, made: Interfaces, value: seq<Entry>, temp: string)
    requires only.Keys == {temp} && made.Keys !! only.Keys && IsDesired(made, value)
    ensures Run(only + made, [Delete(temp), Sync]) == if SomeSetting(value) then Ok(made) else Err(only)
  {
    if SomeSetting(value) {
      var e :| e in value && e.settings != [];
      assert e.iface in made;
      DeleteRuns(only + made, temp, e.iface);
      assert only + made - {temp} == made;
    } else {
      assert only + made == only;
      DeleteRefused(only, temp);
    }
  }

  /** The first two phases leave the temporary interface alone. */
  lemma ClearedToTemp(ifaces: Interfaces, snapshot: seq<string>, temp: string, rest: seq<Cmd>)
    requires Names(snapshot, ifaces) && temp !in ifaces
    ensures Run(ifaces, [Set(temp, "static", "true")] + (DeleteCmds(snapshot) + rest))
            == Run(map[temp := STATIC], rest)
  {
    var m1 := ifaces[temp := STATIC];
    RunAppend(ifaces, [Set(temp, "static", "true")], DeleteCmds(snapshot) + rest);
    RunOne(ifaces, Set(temp, "static", "true"));
    RunAppend(m1, DeleteCmds(snapshot), rest);
    DeletesRun(m1, snapshot, temp);
    assert Without(m1, snapshot) == map[temp := STATIC];
  }

  /** The interfaces after a run, whether or not it was refused. */
  function Left(r: Result<Interfaces, Interfaces>): Interfaces {
    match r
    case Ok(m) => m
    case Err(m) => m
  }

  lemma {:induction false} StaysPopulated(ifaces: Interfaces, cmds: seq<Cmd>)
    requires ifaces != map[]
    ensures Left(Run(ifaces, cmds)) != map[]
    decreases cmds
  {
    if cmds != [] && Exec(ifaces, cmds[0]).Ok? {
      var m := Exec(ifaces, cmds[0]).value;
      assert m != map[] by {
        if cmds[0].Delete? && cmds[0].iface in ifaces {
          assert m.Keys == ifaces.Keys - {cmds[0].iface};
          assert |ifaces.Keys - {cmds[0].iface}| == |ifaces| - 1;
        } else if cmds[0].Set? {
          assert cmds[0].iface in m;
        }
      }
      StaysPopulated(m, cmds[1..]);
    }
  }

  /** After each command of the swap the system has an interface, whatever the manifest asks for. */
  lemma NeverEmpty(ifaces: Interfaces, snapshot: seq<string>, value: seq<Entry>, temp: string, k: nat)
    requires 1 <= k <= |SwapCmds(snapshot, value, temp)|
    ensures Left(Run(ifaces, SwapCmds(snapshot, value, temp)[..k])) != map[]
  {
    var first, rest := Set(temp, "static", "true"), SwapCmds(snapshot, value, temp)[1..k];
    assert SwapCmds(snapshot, value, temp)[..k] == [first] + rest;
    RunAppend(ifaces, [first], rest);
    RunOne(ifaces, first);
    var m := Exec(ifaces, first).value;
    assert temp in m;
    StaysPopulated(m, rest);
  }

  /** And none of them is refused if some entry has a setting. */
  lemma NeverRefused(ifaces: Interfaces, snapshot: seq<string>, value: seq<Entry>, temp: string, k: nat)
    requires Names(snapshot, ifaces) && WellFormed(value) && SomeSetting(value)
    requires temp !in ifaces && NoEntry(value, temp) && k <= |SwapCmds(snapshot, value, temp)|
    ensures Run(ifaces, SwapCmds(snapshot, value, temp)[..k]).Ok?
  {
    var cmds := SwapCmds(snapshot, value, temp);
    SwapExact(ifaces, snapshot, value, temp);
    assert cmds == cmds[..k] + cmds[k..];
    RunAppend(ifaces, cmds[..k], cmds[k..]);
  }

  /** Deleting every interface is refused at the last one. */
  lemma DeletingAllRefused(ifaces: Interfaces, names: seq<string>)
    requires Names(names, ifaces) && ifaces != map[]
    ensures Run(ifaces, DeleteCmds(names)).Err?
  {
    var k :| k in ifaces;
    assert k in names;
    var front, last := names[..|names| - 1], names[|names| - 1];
    AllButLast(ifaces, names);
    DeletesRun(ifaces, front, last);
    DeleteCmdsSnoc(front, last);
    RunAppend(ifaces, DeleteCmds(front), [Delete(last), Sync]);
    DeleteRefused(Without(ifaces, front), last);
  }

  lemma AllButLast(ifaces: Interfaces, names: seq<string>)
    requires Names(names, ifaces) && names != []
    ensures var front, last := names[..|names| - 1], names[|names| - 1];
      && names == front + [last] && last in ifaces && last !in front
      && (forall i | 0 <= i < |front| :: front[i] in ifaces)
      && Without(ifaces, front).Keys == {last}
  {
    var n := |names| - 1;
    assert names == names[..n] + [names[n]];
    assert forall i | 0 <= i <= n :: names[i] in names;
  }

  /** Were the snapshot taken after the temporary interface is added, the deletions would be refused. */
  lemma SnapshotMustComeFirst(ifaces: Interfaces, late: seq<string>, value: seq<Entry>, temp: string)
    requires Names(late, ifaces[temp := STATIC]) && temp !in ifaces
    ensures Run(ifaces, SwapCmds(late, value, temp)).Err?
  {
    var rest := CreateCmds(value) + [Delete(temp), Sync];
    var m1 := ifaces[temp := STATIC];
    RunAppend(ifaces, [Set(temp, "static", "true")], DeleteCmds(late) + rest);
    RunOne(ifaces, Set(temp, "static", "true"));
    RunAppend(m1, DeleteCmds(late), rest);
    assert temp in m1;
    DeletingAllRefused(m1, late);
  }
}
