/**
 * The template registry (src/calendar/SubDomainTemplate.js): a name -> template
 * table that `init` fills from the default and user factories and then extends
 * with an `x_` mirror of every entry, rows and columns swapped.
 *
 * The table is a JavaScript object, whose keys are listed by `Object.keys` in
 * the order they were first assigned. The mirror loop walks that listing, so
 * the model keeps the order beside the entries.
 */
module Registry {
  import opened Wrappers
  import opened Templates
  import Year

  /** The abstract value of the table: its entries and their key order. */
  datatype Table = Table(entries: map<string, Template>, keys: seq<string>)

  ghost predicate Distinct(s: seq<string>)
  {
    forall i, j :: 0 <= i < j < |s| ==> s[i] != s[j]
  }

  /** `keys` lists every key of `entries` exactly once. */
  ghost predicate WellFormed(t: Table)
  {
    && Distinct(t.keys)
    && Present(t, t.keys)
    && forall k :: k in t.entries ==> k in t.keys
  }

  /** Every key of `ks` has an entry in `t`. */
  ghost predicate Present(t: Table, ks: seq<string>)
  {
    forall i :: 0 <= i < |ks| ==> ks[i] in t.entries
  }

  /** Every entry has a `position`, which the mirror loop dereferences. */
  ghost predicate Positioned(t: Table)
  {
    forall k :: k in t.entries ==> t.entries[k].position.Some?
  }

  /** `obj[name] = v`: a new key goes to the end of the order, an old one keeps its place. */
  function Store(t: Table, name: string, v: Template): (r: Table)
    ensures name in r.entries && r.entries[name] == v
    ensures forall k :: k != name ==> (k in r.entries <==> k in t.entries)
    ensures forall k :: k != name && k in t.entries ==> r.entries[k] == t.entries[k]
    ensures name in t.entries ==> r.keys == t.keys
    ensures name !in t.entries ==> r.keys == t.keys + [name]
  {
    Table(t.entries[name := v], if name in t.entries then t.keys else t.keys + [name])
  }

  lemma StoreWellFormed(t: Table, name: string, v: Template)
    requires WellFormed(t)
    ensures WellFormed(Store(t, name, v))
  {
  }

  /** The key under which the mirror of key `k` is stored. */
  function XName(k: string): string
  {
    "x_" + k
  }

  /** Keys that already carry the mirror prefix. */
  predicate IsMirrorName(k: string)
  {
    |k| >= 2 && k[..2] == "x_"
  }

  lemma XNameInjective(a: string, b: string)
    ensures XName(a) == XName(b) ==> a == b
  {
    assert a == XName(a)[2..];
    assert b == XName(b)[2..];
  }

  lemma XNameIsMirrorName(k: string)
    ensures IsMirrorName(XName(k))
  {
    assert XName(k)[..2] == "x_";
  }

  /**
   * The descriptor stored under `x_<k>` for the template `t` stored under `k`.
   * Its `level` is the source's `type` property, and it has no `type` of its own.
   */
  function Mirror(k: string, t: Template): (r: Template)
    requires t.position.Some?
    ensures r.position.Some? && IsMirrorName(r.name) && r.typ.None?
  {
    Template(
      name := XName(k),
      level := t.typ,
      typ := None,
      maxItemNumber := t.maxItemNumber,
      row := t.column,
      column := t.row,
      position := Some(Position(t.position.value.y, t.position.value.x)),
      format := t.format,
      extractUnit := t.extractUnit)
  }

  /** The mirror swaps the grid axes and carries everything else but `level` across. */
  lemma MirrorSwaps(k: string, t: Template)
    requires t.position.Some?
    ensures Mirror(k, t).name == "x_" + k
    ensures Mirror(k, t).row == t.column && Mirror(k, t).column == t.row
    ensures Mirror(k, t).position == Some(Position(t.position.value.y, t.position.value.x))
    ensures Mirror(k, t).format == t.format && Mirror(k, t).extractUnit == t.extractUnit
    ensures Mirror(k, t).maxItemNumber == t.maxItemNumber
    ensures Mirror(k, t).level == t.typ && Mirror(k, t).typ.None?
  {
  }

  /**
   * Mirroring a mirror swaps the axes back, but the `level` is lost: the first
   * mirror has no `type` for the second to copy.
   */
  lemma MirrorTwice(k: string, t: Template)
    requires t.position.Some?
    ensures Mirror(k, t).position.Some?
    ensures Mirror(XName(k), Mirror(k, t)).name == "x_x_" + k
    ensures Mirror(XName(k), Mirror(k, t)).row == t.row
    ensures Mirror(XName(k), Mirror(k, t)).column == t.column
    ensures Mirror(XName(k), Mirror(k, t)).position == t.position
    ensures Mirror(XName(k), Mirror(k, t)).level.None?
  {
    assert "x_" + ("x_" + k) == "x_x_" + k;
  }

  /** The factories `init` runs, in order: the defaults, then the user's. */
  function Produce(fs: seq<Factory>, h: DateHelper): seq<Template>
  {
    seq(|fs|, i requires 0 <= i < |fs| => fs[i](h))
  }

  /** The `templates` argument of `init`. */
  datatype UserTemplates = Missing | Single(f: Factory) | Several(fs: seq<Factory>)

  /** Missing means no user factories, a lone factory is a one-element list. */
  function UserList(u: UserTemplates): (r: seq<Factory>)
    ensures r == [] <==> u.Missing? || u == Several([])
    ensures u.Single? ==> |r| == 1 && r[0] == u.f
    ensures u.Several? ==> r == u.fs
  {
    match u
    case Missing => []
    case Single(f) => [f]
    case Several(fs) => fs
  }

  /** The first loop of `init`: store each template under its name, in order. */
  function RegisterAll(t: Table, ts: seq<Template>): (r: Table)
    ensures forall k :: k in t.entries ==> k in r.entries
    ensures forall i :: 0 <= i < |ts| ==> ts[i].name in r.entries
    ensures |t.keys| <= |r.keys| && r.keys[..|t.keys|] == t.keys
    decreases |ts|
  {
    if ts == [] then t
    else
      var last := ts[|ts| - 1];
      Store(RegisterAll(t, ts[..|ts| - 1]), last.name, last)
  }

  /**
   * The second loop of `init` over the key snapshot `ks`: for each key, read
   * its current template and store the mirror under `x_<key>`. Keys are only
   * added, and every entry keeps a position, so each read finds a template the
   * mirror can be built from.
   */
  function MirrorAll(t: Table, ks: seq<string>): (r: Table)
    requires Positioned(t) && Present(t, ks)
    ensures Positioned(r)
    ensures forall k :: k in t.entries ==> k in r.entries
    decreases |ks|
  {
    if ks == [] then t
    else
      var p := MirrorAll(t, ks[..|ks| - 1]);
      var k := ks[|ks| - 1];
      Store(p, XName(k), Mirror(k, p.entries[k]))
  }

  lemma {:induction false} RegisterAllWellFormed(t: Table, ts: seq<Template>)
    requires WellFormed(t)
    ensures WellFormed(RegisterAll(t, ts))
    decreases |ts|
  {
    if ts != [] {
      RegisterAllWellFormed(t, ts[..|ts| - 1]);
      StoreWellFormed(RegisterAll(t, ts[..|ts| - 1]), ts[|ts| - 1].name, ts[|ts| - 1]);
    }
  }

  lemma {:induction false} MirrorAllWellFormed(t: Table, ks: seq<string>)
    requires WellFormed(t) && Positioned(t) && Present(t, ks)
    ensures WellFormed(MirrorAll(t, ks))
    decreases |ks|
  {
    if ks != [] {
      var front := ks[..|ks| - 1];
      MirrorAllWellFormed(t, front);
      var p := MirrorAll(t, front);
      var k := ks[|ks| - 1];
      StoreWellFormed(p, XName(k), Mirror(k, p.entries[k]));
    }
  }

  lemma RegisterAllStep(t: Table, ts: seq<Template>, i: nat)
    requires i < |ts|
    ensures RegisterAll(t, ts[..i + 1]) == Store(RegisterAll(t, ts[..i]), ts[i].name, ts[i])
  {
    assert ts[..i + 1][..i] == ts[..i];
  }

  lemma MirrorAllStep(t: Table, ks: seq<string>, j: nat)
    requires Positioned(t) && Present(t, ks)
    requires j < |ks|
    ensures ks[j] in MirrorAll(t, ks[..j]).entries
    ensures MirrorAll(t, ks[..j + 1])
      == Store(MirrorAll(t, ks[..j]), XName(ks[j]), Mirror(ks[j], MirrorAll(t, ks[..j]).entries[ks[j]]))
  {
    assert ks[..j + 1][..j] == ks[..j];
  }

  /** What `init` may run on without throwing, `ts` being the templates its factories produce. */
  ghost predicate CanInit(t: Table, ts: seq<Template>)
  {
    WellFormed(t) && Positioned(RegisterAll(t, ts))
  }

  /** The table after `init`, starting from `t`, when its factories produce `ts`. */
  function Initialized(t: Table, ts: seq<Template>): (r: Table)
    requires CanInit(t, ts)
    ensures WellFormed(r) && Positioned(r)
  {
    var reg := RegisterAll(t, ts);
    RegisterAllWellFormed(t, ts);
    MirrorAllWellFormed(reg, reg.keys);
    MirrorAll(reg, reg.keys)
  }

  // ---------------------------------------------------------------------------
  // Registration: last write wins, nothing earlier is removed.

  /** Some template of `ts` carries the name `n`. */
  ghost predicate NamedIn(ts: seq<Template>, n: string)
  {
    exists i :: 0 <= i < |ts| && ts[i].name == n
  }

  lemma NamedInSplit(ts: seq<Template>, n: string)
    requires ts != []
    ensures NamedIn(ts, n) <==> NamedIn(ts[..|ts| - 1], n) || ts[|ts| - 1].name == n
  {
    var front := ts[..|ts| - 1];
    if NamedIn(ts, n) {
      var i :| 0 <= i < |ts| && ts[i].name == n;
      if i < |front| { assert front[i].name == n; }
    }
    if NamedIn(front, n) {
      var i :| 0 <= i < |front| && front[i].name == n;
      assert ts[i].name == n;
    }
  }

  /** A name is a key after registration exactly when it was one before or some template carries it. */
  lemma {:induction false} RegisterAllHas(t: Table, ts: seq<Template>, n: string)
    ensures n in RegisterAll(t, ts).entries <==> n in t.entries || NamedIn(ts, n)
    decreases |ts|
  {
    if ts != [] {
      RegisterAllHas(t, ts[..|ts| - 1], n);
      NamedInSplit(ts, n);
    }
  }

  /** The entry for a name is the template of the last factory that produced it. */
  lemma {:induction false} RegisterAllLastWins(t: Table, ts: seq<Template>, i: nat)
    requires i < |ts|
    requires forall j :: i < j < |ts| ==> ts[j].name != ts[i].name
    ensures ts[i].name in RegisterAll(t, ts).entries
    ensures RegisterAll(t, ts).entries[ts[i].name] == ts[i]
    decreases |ts|
  {
    if i < |ts| - 1 {
      var front := ts[..|ts| - 1];
      assert front[i] == ts[i];
      forall j | i < j < |front| ensures front[j].name != front[i].name {
        assert front[j] == ts[j];
      }
      RegisterAllLastWins(t, front, i);
    }
  }

  /** A name no factory produced keeps whatever it had before `init`. */
  lemma {:induction false} RegisterAllKeepsOthers(t: Table, ts: seq<Template>, n: string)
    requires forall j :: 0 <= j < |ts| ==> ts[j].name != n
    ensures n in RegisterAll(t, ts).entries <==> n in t.entries
    ensures n in t.entries ==> RegisterAll(t, ts).entries[n] == t.entries[n]
    decreases |ts|
  {
    if ts != [] {
      var front := ts[..|ts| - 1];
      forall j | 0 <= j < |front| ensures front[j].name != n {
        assert front[j] == ts[j];
      }
      RegisterAllKeepsOthers(t, front, n);
    }
  }

  // ---------------------------------------------------------------------------
  // Mirroring.

  /** Some key of `ks` has `n` as its `x_` key. */
  ghost predicate MirroredBy(ks: seq<string>, n: string)
  {
    exists i :: 0 <= i < |ks| && XName(ks[i]) == n
  }

  lemma MirroredBySplit(ks: seq<string>, n: string)
    requires ks != []
    ensures MirroredBy(ks, n) <==> MirroredBy(ks[..|ks| - 1], n) || XName(ks[|ks| - 1]) == n
  {
    var front := ks[..|ks| - 1];
    if MirroredBy(ks, n) {
      var i :| 0 <= i < |ks| && XName(ks[i]) == n;
      if i < |front| { assert XName(front[i]) == n; }
    }
    if MirroredBy(front, n) {
      var i :| 0 <= i < |front| && XName(front[i]) == n;
      assert XName(ks[i]) == n;
    }
  }

  /** The mirror loop adds exactly the `x_` key of each snapshot key. */
  lemma {:induction false} MirrorAllHas(t: Table, ks: seq<string>, n: string)
    requires Positioned(t) && Present(t, ks)
    ensures n in MirrorAll(t, ks).entries <==> n in t.entries || MirroredBy(ks, n)
    decreases |ks|
  {
    if ks != [] {
      MirrorAllHas(t, ks[..|ks| - 1], n);
      MirroredBySplit(ks, n);
    }
  }

  /** A key that no step of the loop writes is left as it was. */
  lemma {:induction false} MirrorAllUntouched(t: Table, ks: seq<string>, n: string)
    requires Positioned(t) && Present(t, ks)
    requires forall j :: 0 <= j < |ks| ==> XName(ks[j]) != n
    ensures n in MirrorAll(t, ks).entries <==> n in t.entries
    ensures n in t.entries ==> MirrorAll(t, ks).entries[n] == t.entries[n]
    decreases |ks|
  {
    if ks != [] {
      var front := ks[..|ks| - 1];
      forall j | 0 <= j < |front| ensures XName(front[j]) != n {
        assert front[j] == ks[j];
      }
      MirrorAllUntouched(t, front, n);
    }
  }

  /**
   * The mirror of snapshot key `ks[i]` is built from that key's template as it
   * stood before the loop, provided no earlier step overwrote `ks[i]` (that
   * happens only when `ks[i]` is itself `x_` of an earlier key).
   */
  lemma {:induction false} MirrorAllEntry(t: Table, ks: seq<string>, i: nat)
    requires Positioned(t) && Present(t, ks)
    requires Distinct(ks)
    requires i < |ks|
    requires forall j :: 0 <= j < i ==> XName(ks[j]) != ks[i]
    ensures XName(ks[i]) in MirrorAll(t, ks).entries
    ensures MirrorAll(t, ks).entries[XName(ks[i])] == Mirror(ks[i], t.entries[ks[i]])
    decreases |ks|
  {
    var front := ks[..|ks| - 1];
    if i == |ks| - 1 {
      forall j | 0 <= j < |front| ensures XName(front[j]) != ks[i] {
        assert front[j] == ks[j];
      }
      MirrorAllUntouched(t, front, ks[i]);
    } else {
      assert front[i] == ks[i];
      forall j | 0 <= j < i ensures XName(front[j]) != front[i] {
        assert front[j] == ks[j];
      }
      MirrorAllEntry(t, front, i);
      XNameInjective(ks[|ks| - 1], ks[i]);
    }
  }

  /** A key without the prefix is never the `x_` key of anything, and an `x_x_` key never mirrors a plain one. */
  lemma PlainNotMirrored(a: string, b: string)
    requires !IsMirrorName(a)
    ensures XName(b) != a
    ensures XName(a) != XName(XName(b))
  {
    XNameIsMirrorName(b);
    XNameInjective(a, XName(b));
  }

  /**
   * A key without the prefix, after the mirror loop over all keys: no step
   * writes it, so it keeps its entry and its mirror is built from that entry.
   */
  lemma MirrorAllPlainAt(t: Table, k: string)
    requires WellFormed(t) && Positioned(t)
    requires k in t.entries && !IsMirrorName(k)
    ensures k in MirrorAll(t, t.keys).entries && MirrorAll(t, t.keys).entries[k] == t.entries[k]
    ensures XName(k) in MirrorAll(t, t.keys).entries
    ensures MirrorAll(t, t.keys).entries[XName(k)] == Mirror(k, t.entries[k])
  {
    forall j | 0 <= j < |t.keys| ensures XName(t.keys[j]) != k {
      PlainNotMirrored(k, t.keys[j]);
    }
    MirrorAllUntouched(t, t.keys, k);
    var i :| 0 <= i < |t.keys| && t.keys[i] == k;
    MirrorAllEntry(t, t.keys, i);
  }

  /** A table without `x_` keys gets no `x_x_` key from the mirror loop. */
  lemma MirrorAllNoDoubleMirror(t: Table, k: string)
    requires WellFormed(t) && Positioned(t)
    requires forall k :: k in t.entries ==> !IsMirrorName(k)
    ensures XName(XName(k)) !in MirrorAll(t, t.keys).entries
  {
    XNameIsMirrorName(XName(k));
    MirrorAllHas(t, t.keys, XName(XName(k)));
    forall i | 0 <= i < |t.keys| ensures XName(t.keys[i]) != XName(XName(k)) {
      PlainNotMirrored(t.keys[i], k);
    }
  }

  /**
   * When `k` comes before `x_k` in the snapshot, visiting `k` overwrites `x_k`
   * first, so the `x_x_k` entry is `k`'s template mirrored twice.
   */
  lemma {:induction false} MirrorAllAfterOverwrite(t: Table, ks: seq<string>, i: nat, j: nat)
    requires Positioned(t) && Present(t, ks) && Distinct(ks)
    requires i < j < |ks| && ks[j] == XName(ks[i])
    requires forall l :: 0 <= l < i ==> XName(ks[l]) != ks[i]
    ensures XName(ks[j]) in MirrorAll(t, ks).entries
    ensures MirrorAll(t, ks).entries[XName(ks[j])] == Mirror(ks[j], Mirror(ks[i], t.entries[ks[i]]))
    decreases |ks|
  {
    var front := ks[..|ks| - 1];
    assert front[i] == ks[i];
    forall l | 0 <= l < i ensures XName(front[l]) != front[i] {
      assert front[l] == ks[l];
    }
    if j == |ks| - 1 {
      MirrorAllEntry(t, front, i);
    } else {
      assert front[j] == ks[j];
      MirrorAllAfterOverwrite(t, front, i, j);
      XNameInjective(ks[|ks| - 1], ks[j]);
    }
  }

  /**
   * The loop reads each key's entry when it reaches it. With both `k` (at `i`)
   * and `x_k` (at `j`) in the snapshot, `x_k` ends as the mirror of `k` in
   * either order, but `x_x_k` is built from the overwritten `x_k` when `k`
   * comes first and from the registered `x_k` when it comes second.
   */
  lemma MirrorReadsCurrentEntry(t: Table, ks: seq<string>, i: nat, j: nat)
    requires Positioned(t) && Present(t, ks) && Distinct(ks)
    requires i < |ks| && j < |ks| && ks[j] == XName(ks[i])
    requires forall l :: 0 <= l < i ==> XName(ks[l]) != ks[i]
    ensures ks[j] in MirrorAll(t, ks).entries
    ensures MirrorAll(t, ks).entries[ks[j]] == Mirror(ks[i], t.entries[ks[i]])
    ensures XName(ks[j]) in MirrorAll(t, ks).entries
    ensures i < j ==> MirrorAll(t, ks).entries[XName(ks[j])] == Mirror(ks[j], Mirror(ks[i], t.entries[ks[i]]))
    ensures j < i ==> MirrorAll(t, ks).entries[XName(ks[j])] == Mirror(ks[j], t.entries[ks[j]])
  {
    MirrorAllEntry(t, ks, i);
    if i < j {
      MirrorAllAfterOverwrite(t, ks, i, j);
    } else if j < i {
      forall l | 0 <= l < j ensures XName(ks[l]) != ks[j] {
        XNameInjective(ks[l], ks[i]);
      }
      MirrorAllEntry(t, ks, j);
    }
  }

  // ---------------------------------------------------------------------------
  // The whole of `init`.

  /** Names that are keys once the first loop is done: the old keys and every produced name. */
  ghost predicate Registered(t: Table, ts: seq<Template>, n: string)
  {
    n in t.entries || NamedIn(ts, n)
  }

  /** The `x_` keys the mirror loop adds are those of the registered names. */
  lemma RegisteredMirrors(t: Table, ts: seq<Template>, n: string)
    requires WellFormed(t)
    ensures WellFormed(RegisterAll(t, ts))
    ensures MirroredBy(RegisterAll(t, ts).keys, n) <==> exists m :: Registered(t, ts, m) && XName(m) == n
  {
    var reg := RegisterAll(t, ts);
    RegisterAllWellFormed(t, ts);
    if MirroredBy(reg.keys, n) {
      var i :| 0 <= i < |reg.keys| && XName(reg.keys[i]) == n;
      RegisterAllHas(t, ts, reg.keys[i]);
    }
    if exists m :: Registered(t, ts, m) && XName(m) == n {
      var m :| Registered(t, ts, m) && XName(m) == n;
      RegisterAllHas(t, ts, m);
      var i :| 0 <= i < |reg.keys| && reg.keys[i] == m;
      assert XName(reg.keys[i]) == n;
    }
  }

  /**
   * After `init` the keys are exactly the registered names and their `x_`
   * mirrors; in particular nothing that was there before is removed.
   */
  lemma InitializedHas(t: Table, ts: seq<Template>, n: string)
    requires CanInit(t, ts)
    ensures n in Initialized(t, ts).entries <==>
      Registered(t, ts, n) || exists m :: Registered(t, ts, m) && XName(m) == n
  {
    var reg := RegisterAll(t, ts);
    RegisterAllHas(t, ts, n);
    RegisteredMirrors(t, ts, n);
    MirrorAllHas(reg, reg.keys, n);
  }

  /** Leaving out the argument runs the defaults alone; a lone factory runs as a one-element list. */
  lemma InitArgument(defaults: seq<Factory>, f: Factory, h: DateHelper)
    ensures Produce(defaults + UserList(Missing), h) == Produce(defaults, h)
    ensures Produce(defaults + UserList(Single(f)), h) == Produce(defaults, h) + [f(h)]
    ensures Produce(defaults + UserList(Single(f)), h) == Produce(defaults + UserList(Several([f])), h)
  {
    assert defaults + UserList(Missing) == defaults;
  }

  /**
   * One `init` on a table whose keys and produced names carry no `x_` prefix
   * (an empty table with the built-in names, say): every registered entry
   * stays, its mirror is built from it, and no `x_x_` key appears.
   */
  lemma InitPlain(t: Table, ts: seq<Template>)
    requires CanInit(t, ts)
    requires forall k :: k in t.entries ==> !IsMirrorName(k)
    requires forall i :: 0 <= i < |ts| ==> !IsMirrorName(ts[i].name)
    ensures forall n :: n in RegisterAll(t, ts).entries ==>
      && n in Initialized(t, ts).entries
      && Initialized(t, ts).entries[n] == RegisterAll(t, ts).entries[n]
      && XName(n) in Initialized(t, ts).entries
      && Initialized(t, ts).entries[XName(n)] == Mirror(n, RegisterAll(t, ts).entries[n])
    ensures forall k :: XName(XName(k)) !in Initialized(t, ts).entries
  {
    var reg := RegisterAll(t, ts);
    RegisterAllWellFormed(t, ts);
    forall k | k in reg.entries ensures !IsMirrorName(k) {
      RegisterAllHas(t, ts, k);
    }
    forall n | n in reg.entries
      ensures n in Initialized(t, ts).entries
      ensures Initialized(t, ts).entries[n] == reg.entries[n]
      ensures XName(n) in Initialized(t, ts).entries
      ensures Initialized(t, ts).entries[XName(n)] == Mirror(n, reg.entries[n])
    {
      MirrorAllPlainAt(reg, n);
    }
    forall k ensures XName(XName(k)) !in Initialized(t, ts).entries {
      MirrorAllNoDoubleMirror(reg, k);
    }
  }

  /**
   * When the `year` descriptor is the last produced under the name "year",
   * the table ends with it under "year" and with its mirror under "x_year".
   */
  lemma InitRegistersYear(t: Table, ts: seq<Template>, h: DateHelper, i: nat)
    requires CanInit(t, ts)
    requires i < |ts| && ts[i] == Year.YearTemplate(h)
    requires forall j :: i < j < |ts| ==> ts[j].name != "year"
    ensures "year" in Initialized(t, ts).entries
    ensures Initialized(t, ts).entries["year"] == Year.YearTemplate(h)
    ensures "x_year" in Initialized(t, ts).entries
    ensures Initialized(t, ts).entries["x_year"] == Mirror("year", Year.YearTemplate(h))
  {
    var reg := RegisterAll(t, ts);
    RegisterAllWellFormed(t, ts);
    RegisterAllLastWins(t, ts, i);
    YearNames();
    MirrorAllPlainAt(reg, "year");
  }

  lemma YearNames()
    ensures !IsMirrorName("year") && XName("year") == "x_year"
  {
    assert "year"[..2] == "ye";
  }

  /**
   * The year template places its single cell at row 1, column 1, so its
   * mirror is the same grid; its `level` does not survive, as year has no `type`.
   */
  lemma YearMirrorSameGrid(h: DateHelper)
    ensures Mirror("year", Year.YearTemplate(h)).name == "x_year"
    ensures Mirror("year", Year.YearTemplate(h)).level.None?
    ensures forall d ::
      && Mirror("year", Year.YearTemplate(h)).row.value(d) == Year.YearTemplate(h).row.value(d)
      && Mirror("year", Year.YearTemplate(h)).column.value(d) == Year.YearTemplate(h).column.value(d)
      && Mirror("year", Year.YearTemplate(h)).position.value.x(d) == Year.YearTemplate(h).position.value.x(d)
      && Mirror("year", Year.YearTemplate(h)).position.value.y(d) == Year.YearTemplate(h).position.value.y(d)
    ensures Mirror("year", Year.YearTemplate(h)).format == Year.YearTemplate(h).format
    ensures Mirror("year", Year.YearTemplate(h)).extractUnit == Year.YearTemplate(h).extractUnit
  {
    YearNames();
  }

  // ---------------------------------------------------------------------------
  // `at` as written reads through the prototype chain.

  /** Properties every plain JavaScript object inherits from `Object.prototype`. */
  const ObjectPrototypeNames: set<string> := {
    "constructor", "hasOwnProperty", "isPrototypeOf", "propertyIsEnumerable",
    "toLocaleString", "toString", "valueOf", "__proto__",
    "__defineGetter__", "__defineSetter__", "__lookupGetter__", "__lookupSetter__"
  }

  /** What a property read `settings[domain]` yields on a plain object. */
  datatype Lookup = Own(template: Template) | Inherited(member: string) | Undefined

  /** `at` as written: `this.settings[domain]`, prototype chain included. */
  function AtAsWritten(settings: map<string, Template>, domain: string): (r: Lookup)
    ensures r.Own? <==> domain in settings
    ensures r.Own? ==> r.template == settings[domain]
    ensures r.Inherited? <==> domain !in settings && domain in ObjectPrototypeNames
    ensures r.Inherited? ==> r.member == domain
  {
    if domain in settings then Own(settings[domain])
    else if domain in ObjectPrototypeNames then Inherited(domain)
    else Undefined
  }

  /**
   * On any table without an own "toString" entry, `at("toString")` as written
   * yields the inherited method, not `undefined`, although `has` says no.
   */
  lemma AtAsWrittenSeesPrototype(settings: map<string, Template>)
    requires "toString" !in settings
    ensures AtAsWritten(settings, "toString") == Inherited("toString")
  {
  }

  // ---------------------------------------------------------------------------
  // The registry object.

  class SubDomainTemplate {
    /** `this.settings`: the entries by name. */
    var settings: map<string, Template>
    /** The order in which `Object.keys(this.settings)` lists them. */
    var keys: seq<string>
    /** `this.calendar.helpers.DateHelper`. */
    const helper: DateHelper
    /** The imported `DefaultTemplates` list. */
    const defaults: seq<Factory>

    function Current(): Table
      reads this
    {
      Table(settings, keys)
    }

    ghost predicate Valid()
      reads this
    {
      WellFormed(Current())
    }

    constructor (helper: DateHelper, defaults: seq<Factory>)
      ensures Valid()
      ensures settings == map[] && keys == []
      ensures this.helper == helper && this.defaults == defaults
      ensures forall n :: !Has(n)
    {
      this.helper := helper;
      this.defaults := defaults;
      settings := map[];
      keys := [];
    }

    /**
     * `at(domain)` with own-property lookup: the stored template, or nothing
     * for exactly the names `has` rejects, inherited names included.
     */
    function At(domain: string): (r: Option<Template>)
      reads this
      requires Valid()
      ensures r.Some? <==> Has(domain)
      ensures r.Some? ==> AtAsWritten(settings, domain) == Own(r.value)
      ensures r.None? ==> !AtAsWritten(settings, domain).Own?
    {
      if domain in settings then Some(settings[domain]) else None
    }

    /** `has(domain)`: whether `Object.keys` of the table lists `domain`. */
    function Has(domain: string): (r: bool)
      reads this
      requires Valid()
      ensures r <==> domain in keys
    {
      domain in settings
    }

    /**
     * `init(templates)`: run the default then the user factories, storing each
     * result under its name, then add an `x_` mirror for every key present.
     */
    method Init(user: UserTemplates)
      requires Valid()
      requires CanInit(Current(), Produce(defaults + UserList(user), helper))
      modifies this
      ensures Valid()
      ensures Current() == Initialized(old(Current()), Produce(defaults + UserList(user), helper))
    {
      ghost var start := Current();
      var factories := defaults + UserList(user);
      ghost var produced := Produce(factories, helper);
      var i := 0;
      while i < |factories|
        invariant 0 <= i <= |factories|
        invariant Current() == RegisterAll(start, produced[..i])
      {
        var template := factories[i](helper);
        RegisterAllStep(start, produced, i);
        var stored := Store(Current(), template.name, template);
        settings, keys := stored.entries, stored.keys;
        i := i + 1;
      }
      assert produced[..i] == produced;
      ghost var registered := Current();
      RegisterAllWellFormed(start, produced);
      var snapshot := keys;
      var j := 0;
      while j < |snapshot|
        invariant 0 <= j <= |snapshot|
        invariant Positioned(registered) && Present(registered, snapshot)
        invariant Current() == MirrorAll(registered, snapshot[..j])
      {
        var k := snapshot[j];
        MirrorAllStep(registered, snapshot, j);
        var stored := Store(Current(), XName(k), Mirror(k, settings[k]));
        settings, keys := stored.entries, stored.keys;
        j := j + 1;
      }
      assert snapshot[..j] == snapshot;
      MirrorAllWellFormed(registered, snapshot);
    }
  }
}
