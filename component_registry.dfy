/**
 * The component registry of src/index.ts: a component name derived from
 * each module path, the name-to-component table built from the module
 * list, `getComponent`, and the plugin's `install`.
 */
module ComponentRegistry {
  import opened Options

  /** One entry of the module list: a file path and the module's default export, if any. */
  datatype ModuleEntry<C> = ModuleEntry(path: string, component: Option<C>)

  // ---------------------------------------------------------------------
  // Name derivation (lines 18-22)
  // ---------------------------------------------------------------------

  /** `path.split('/').pop()`: the longest suffix of the path without a `/`. */
  function LastSegment(path: string): (seg: string)
    ensures '/' !in seg
    ensures |seg| <= |path| && seg == path[|path| - |seg|..]
    ensures |seg| < |path| ==> path[|path| - |seg| - 1] == '/'
  {
    if path == [] then []
    else if path[|path| - 1] == '/' then []
    else LastSegment(path[..|path| - 1]) + [path[|path| - 1]]
  }

  /** `.replace(/\.vue$/, '')`: one trailing `.vue` removed. */
  function StripVue(s: string): (r: string)
    ensures |s| >= 4 && s[|s| - 4..] == ".vue" ==> r + ".vue" == s
    ensures !(|s| >= 4 && s[|s| - 4..] == ".vue") ==> r == s
  {
    if |s| >= 4 && s[|s| - 4..] == ".vue" then s[..|s| - 4] else s
  }

  /** `\w` without the `u` flag. */
  predicate IsWordChar(c: char) {
    ('a' <= c <= 'z') || ('A' <= c <= 'Z') || ('0' <= c <= '9') || c == '_'
  }

  predicate IsLowerLetter(c: char) {
    'a' <= c <= 'z'
  }

  /** `toUpperCase` of a word character: only a lower-case letter changes. */
  function ToUpper(c: char): (u: char)
    ensures IsWordChar(c) ==> IsWordChar(u) && !IsLowerLetter(u)
    ensures IsLowerLetter(c) ==> 'A' <= u <= 'Z' && u as int - 'A' as int == c as int - 'a' as int
    ensures !IsLowerLetter(c) ==> u == c
  {
    if IsLowerLetter(c) then (c as int - 32) as char else c
  }

  /**
   * `.replace(/-(\w)/g, (_, c) => c.toUpperCase())`: scanning left to
   * right, each `-` followed by a word character is replaced by that
   * character upper-cased, and scanning resumes after the pair.
   */
  function Camelize(s: string): (r: string)
    ensures |r| <= |s|
    ensures '/' !in s ==> '/' !in r
    ensures '-' !in s ==> r == s
    ensures |s| > 0 ==> |r| > 0
    ensures |s| > 0 ==> r[0] == if s[0] == '-' && |s| >= 2 && IsWordChar(s[1]) then ToUpper(s[1]) else s[0]
  {
    if |s| >= 2 && s[0] == '-' && IsWordChar(s[1]) then [ToUpper(s[1])] + Camelize(s[2..])
    else if s == [] then []
    else [s[0]] + Camelize(s[1..])
  }

  /** No `-` in `s` is directly followed by a lower-case letter. */
  predicate NoDashBeforeLower(s: string) {
    forall i :: 0 <= i < |s| - 1 && s[i] == '-' ==> !IsLowerLetter(s[i + 1])
  }

  /** After camelizing, no `-` is left in front of a lower-case letter. */
  lemma {:induction false} CamelizeLeavesNoDashBeforeLower(s: string)
    ensures NoDashBeforeLower(Camelize(s))
  {
    if |s| >= 2 && s[0] == '-' && IsWordChar(s[1]) {
      CamelizeLeavesNoDashBeforeLower(s[2..]);
      var r := Camelize(s);
      assert r[1..] == Camelize(s[2..]);
    } else if s != [] {
      CamelizeLeavesNoDashBeforeLower(s[1..]);
      var r := Camelize(s);
      var t := Camelize(s[1..]);
      assert r[1..] == t;
      if s[0] == '-' && |t| > 0 {
        // s[1] is not a word character, so it is what `t` starts with, or
        // `t` starts with an upper-cased word character.
        assert !IsLowerLetter(t[0]);
      }
    }
  }

  /** Camelizing a text without `-` in front of another text keeps it. */
  lemma {:induction false} CamelizeConcat(a: string, t: string)
    requires '-' !in a
    ensures Camelize(a + t) == a + Camelize(t)
  {
    if a != [] {
      var s := a + t;
      assert s[0] == a[0] && a[0] != '-';
      assert s[1..] == a[1..] + t;
      CamelizeConcat(a[1..], t);
      assert Camelize(s) == [a[0]] + Camelize(s[1..]);
      assert a == [a[0]] + a[1..];
    } else {
      assert a + t == t;
    }
  }

  /** The component name derived from a module path. */
  function ComponentName(path: string): (name: string)
    ensures '/' !in name
    ensures |name| <= |LastSegment(path)|
  {
    Camelize(StripVue(LastSegment(path)))
  }

  /** The segment after the last `/` is what `split('/').pop()` returns. */
  lemma {:induction false} LastSegmentAfterSlash(dir: string, file: string)
    requires '/' !in file
    ensures LastSegment(dir + "/" + file) == file
  {
    if file != [] {
      var f := file[..|file| - 1];
      LastSegmentAfterSlash(dir, f);
      assert (dir + "/" + file)[..|dir + "/" + file| - 1] == dir + "/" + f;
    } else {
      assert dir + "/" + file == dir + "/";
    }
  }

  lemma CoralButtonSegment()
    ensures LastSegment("./components/Coral-Button.vue") == "Coral-Button.vue"
  {
    assert "./components/Coral-Button.vue" == "./components" + "/" + "Coral-Button.vue";
    LastSegmentAfterSlash("./components", "Coral-Button.vue");
  }

  /** A leading `-` and word character become that character upper-cased. */
  lemma CamelizeLeadingHyphen(c: char, t: string)
    requires '-' !in t && IsWordChar(c)
    ensures Camelize(['-', c] + t) == [ToUpper(c)] + t
  {
    var u := ['-', c] + t;
    assert u[0] == '-' && u[1] == c && u[2..] == t;
  }

  /** One hyphen-word junction between two texts without `-`. */
  lemma CamelizeOneHyphen(a: string, c: char, t: string)
    requires '-' !in a && '-' !in t && IsWordChar(c)
    ensures Camelize(a + ['-', c] + t) == a + [ToUpper(c)] + t
  {
    var u := ['-', c] + t;
    CamelizeLeadingHyphen(c, t);
    CamelizeConcat(a, u);
    assert a + ['-', c] + t == a + u;
  }

  lemma CoralButtonPieces()
    ensures '-' !in "Coral" && '-' !in "utton" && IsWordChar('B')
    ensures "Coral" + ['-', 'B'] + "utton" == "Coral-Button"
    ensures "Coral" + [ToUpper('B')] + "utton" == "CoralButton"
  {
  }

  lemma CoralButtonCamelized()
    ensures Camelize("Coral-Button") == "CoralButton"
  {
    CoralButtonPieces();
    CamelizeOneHyphen("Coral", 'B', "utton");
  }

  /** The example the source gives: `./components/Coral-Button.vue` becomes `CoralButton`. */
  lemma CoralButtonName()
    ensures ComponentName("./components/Coral-Button.vue") == "CoralButton"
  {
    CoralButtonSegment();
    assert StripVue("Coral-Button.vue") == "Coral-Button";
    CoralButtonCamelized();
  }

  // ---------------------------------------------------------------------
  // The components table (lines 13-28)
  // ---------------------------------------------------------------------

  /** A module entry with its derived component name. */
  datatype NamedEntry<C> = NamedEntry(name: string, component: Option<C>)

  /** Each module paired with the name `ComponentName` derives from its path. */
  function NameAll<C>(modules: seq<ModuleEntry<C>>): (named: seq<NamedEntry<C>>)
    ensures |named| == |modules|
    ensures forall i :: 0 <= i < |modules| ==>
              named[i] == NamedEntry(ComponentName(modules[i].path), modules[i].component)
  {
    seq(|modules|, i requires 0 <= i < |modules| => NamedEntry(ComponentName(modules[i].path), modules[i].component))
  }

  /** Entry `i` puts a component under name `k`: it has a default export and a non-empty name `k`. */
  predicate Registers<C>(named: seq<NamedEntry<C>>, i: int, k: string) {
    0 <= i < |named| && named[i].component.Some? && k != "" && named[i].name == k
  }

  /** One step of the `forEach`: add the module's default export under its name, when both are present. */
  function AddModule<C>(components: map<string, C>, e: NamedEntry<C>): map<string, C> {
    if e.name != "" && e.component.Some? then components[e.name := e.component.value] else components
  }

  /** The table after the `forEach` has visited every entry in order. */
  function Table<C>(named: seq<NamedEntry<C>>): map<string, C>
    decreases |named|
  {
    if named == [] then map[] else AddModule(Table(named[..|named| - 1]), named[|named| - 1])
  }

  /** Visiting one more entry adds that entry to the table. */
  lemma TableStep<C>(named: seq<NamedEntry<C>>, i: int)
    requires 0 <= i < |named|
    ensures Table(named[..i + 1]) == AddModule(Table(named[..i]), named[i])
  {
    assert named[..i + 1][..i] == named[..i];
  }

  /** The `forEach` at lines 16-28, filling `components` in place. */
  method BuildComponents<C>(modules: seq<ModuleEntry<C>>) returns (components: map<string, C>)
    ensures components == Table(NameAll(modules))
  {
    ghost var named := NameAll(modules);
    components := map[];
    for i := 0 to |modules|
      invariant components == Table(named[..i])
    {
      TableStep(named, i);
      var name := ComponentName(modules[i].path);
      assert named[i] == NamedEntry(name, modules[i].component);
      if name != "" && modules[i].component.Some? {
        components := components[name := modules[i].component.value];
      }
    }
    assert named[..|modules|] == named;
  }

  /** A name is in the table exactly when some entry registers it. */
  lemma {:induction false} TableKeys<C>(named: seq<NamedEntry<C>>, k: string)
    ensures k in Table(named) <==> exists i :: Registers(named, i, k)
    decreases |named|
  {
    if named != [] {
      var n := |named| - 1;
      var init := named[..n];
      TableKeys(init, k);
      if k in Table(named) && k !in Table(init) {
        assert Registers(named, n, k);
      }
      if k in Table(init) {
        var i :| Registers(init, i, k);
        assert Registers(named, i, k);
      }
      if exists i :: Registers(named, i, k) {
        var i :| Registers(named, i, k);
        if i < n {
          assert init[i] == named[i];
          assert Registers(init, i, k);
          assert k in Table(init);
        }
        assert k in Table(named);
      }
    }
  }

  /** For a name registered more than once, the table keeps the component of the last entry. */
  lemma {:induction false} TableLastWins<C>(named: seq<NamedEntry<C>>, i: int, k: string)
    requires Registers(named, i, k)
    requires forall j :: i < j < |named| ==> !Registers(named, j, k)
    ensures k in Table(named) && Table(named)[k] == named[i].component.value
    decreases |named|
  {
    var n := |named| - 1;
    if i < n {
      var init := named[..n];
      assert Registers(init, i, k);
      forall j | i < j < |init| ensures !Registers(init, j, k) {
        assert !Registers(named, j, k);
      }
      TableLastWins(init, i, k);
      assert !Registers(named, n, k);
    }
  }

  /** Every name in the table is non-empty and has no `/`. */
  lemma TableNamesWellFormed<C>(modules: seq<ModuleEntry<C>>, k: string)
    requires k in Table(NameAll(modules))
    ensures k != "" && '/' !in k
  {
    TableKeys(NameAll(modules), k);
  }

  // ---------------------------------------------------------------------
  // getComponent (line 44)
  // ---------------------------------------------------------------------

  /** `getComponent(name)`: the table entry for `name`, or `None` (the source's `undefined`). */
  function GetComponent<C>(components: map<string, C>, name: string): (r: Option<C>)
    ensures r.Some? <==> name in components
    ensures r.Some? ==> r.value == components[name]
  {
    if name in components then Some(components[name]) else None
  }

  /**
   * On the table built from the module list, `getComponent(name)` finds a
   * component exactly when some entry registers `name`, and then it is
   * that of the last such entry.
   */
  lemma GetComponentFromModules<C>(named: seq<NamedEntry<C>>, name: string)
    ensures GetComponent(Table(named), name).Some? <==> exists i :: Registers(named, i, name)
    ensures forall i :: Registers(named, i, name) && (forall j :: i < j < |named| ==> !Registers(named, j, name))
              ==> GetComponent(Table(named), name) == Some(named[i].component.value)
  {
    TableKeys(named, name);
    forall i | Registers(named, i, name) && (forall j :: i < j < |named| ==> !Registers(named, j, name))
      ensures GetComponent(Table(named), name) == Some(named[i].component.value)
    {
      TableLastWins(named, i, name);
    }
  }

  /** What a property read `components[name]` on the plain object literal yields. */
  datatype PropertyRead<C> = Own(component: C) | Inherited(member: string) | Undefined

  /** The properties every object literal inherits from Object.prototype. */
  const ObjectPrototypeMembers: set<string> := {
    "constructor", "hasOwnProperty", "isPrototypeOf", "propertyIsEnumerable",
    "toLocaleString", "toString", "valueOf", "__defineGetter__",
    "__defineSetter__", "__lookupGetter__", "__lookupSetter__", "__proto__"
  }

  /** `components[name]` as written, on an object created by `{}`. */
  function GetComponentAsWritten<C>(components: map<string, C>, name: string): (r: PropertyRead<C>)
    ensures name in components ==> r == Own(components[name])
    ensures name !in components && name in ObjectPrototypeMembers ==> r.Inherited?
    ensures r.Undefined? <==> name !in components && name !in ObjectPrototypeMembers
  {
    if name in components then Own(components[name])
    else if name in ObjectPrototypeMembers then Inherited(name)
    else Undefined
  }

  /** With no module registering `toString`, the source's `getComponent('toString')` is still not `undefined`. */
  lemma GetComponentReturnsPrototypeMember()
    ensures Table<int>(NameAll([])) == map[]
    ensures GetComponentAsWritten(Table<int>(NameAll([])), "toString") == Inherited("toString")
    ensures GetComponent(Table<int>(NameAll([])), "toString") == None
  {
  }

  // ---------------------------------------------------------------------
  // install (lines 31-37)
  // ---------------------------------------------------------------------

  /** The application's global component registry. */
  class App<C> {
    var registered: map<string, C>

    constructor ()
      ensures registered == map[]
    {
      registered := map[];
    }

    /** `app.component(name, component)`: register (or replace) a global component. */
    method Component(name: string, component: C)
      modifies this
      ensures registered == old(registered)[name := component]
    {
      registered := registered[name := component];
    }
  }

  /** The part of `components` whose names are in `names`. */
  function Restrict<C>(components: map<string, C>, names: set<string>): (m: map<string, C>)
    ensures m.Keys == components.Keys * names
    ensures forall k :: k in m ==> m[k] == components[k]
  {
    map k | k in components && k in names :: components[k]
  }

  /** `install(app)`: every table entry registered under its own name, and nothing else. */
  method Install<C>(app: App<C>, components: map<string, C>)
    modifies app
    ensures app.registered == old(app.registered) + components
  {
    var pending := components.Keys;
    while pending != {}
      invariant pending <= components.Keys
      invariant app.registered == old(app.registered) + Restrict(components, components.Keys - pending)
      decreases pending
    {
      var name :| name in pending;
      app.Component(name, components[name]);
      pending := pending - {name};
      assert Restrict(components, components.Keys - pending)
          == Restrict(components, components.Keys - (pending + {name}))[name := components[name]];
    }
    assert Restrict(components, components.Keys) == components;
  }
}
