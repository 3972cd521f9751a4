/** The editors of the control panel (src/components/ControlPanel.tsx): the
    package and sales-point collection operations, the single step that applies
    any edit the form can make, and the well-formedness the form maintains. */
module ControlPanel {
  import opened Wrappers
  import opened Seqs
  import opened Settings
  import opened Storage
  import Decimal

  // ---------------------------------------------------------------------
  // Packages
  // ---------------------------------------------------------------------

  const NewPackageName: string := "باقة جديدة"
  const NewPackageSpeed: string := "1 Mbps"
  const NewPackagePrice: string := "50 ريال"

  /** No two packages share an id. */
  predicate UniqueIds(ps: seq<Package>) {
    forall i, j :: 0 <= i < j < |ps| ==> ps[i].id != ps[j].id
  }

  /** The test `pkg => pkg.id !== id`. */
  function OtherId(id: string): Package -> bool {
    (p: Package) => p.id != id
  }

  predicate HasId(ps: seq<Package>, id: string) {
    exists i :: 0 <= i < |ps| && ps[i].id == id
  }

  /** `addPackage`: one placeholder package appended at the end. The page
      takes its id from the clock; here the id is a parameter. */
  function AddPackage(s: AppSettings, newId: string): (r: AppSettings)
    ensures r == s.(packages := r.packages)
    ensures |r.packages| == |s.packages| + 1 && r.packages[..|s.packages|] == s.packages
    ensures r.packages[|s.packages|].id == newId
    ensures r.packages[|s.packages|].name == NewPackageName
    ensures r.packages[|s.packages|].speed == NewPackageSpeed
    ensures r.packages[|s.packages|].price == NewPackagePrice
  {
    s.(packages := s.packages + [Package(newId, NewPackageName, NewPackageSpeed, NewPackagePrice)])
  }

  /** `removePackage(id)`: keeps the packages whose id differs from `id`, each
      as often as before (their order is kept, see `Seqs.FilterAppend`). The
      delete button is disabled while only one package is left. */
  function RemovePackage(s: AppSettings, id: string): (r: AppSettings)
    requires |s.packages| > 1
    ensures r == s.(packages := r.packages)
    ensures forall i :: 0 <= i < |r.packages| ==> r.packages[i].id != id
    ensures forall p :: multiset(r.packages)[p] == if p.id == id then 0 else multiset(s.packages)[p]
    ensures !HasId(s.packages, id) ==> r == s
  {
    var keep := OtherId(id);
    FilterKeepsAll(s.packages, keep);
    FilterMultiset(s.packages, keep);
    s.(packages := Filter(s.packages, keep))
  }

  /** With unique ids, filtering out the id of the package at `j` drops
      exactly that package and keeps the others in order. */
  lemma {:induction false} FilterUniqueId(ps: seq<Package>, j: nat)
    requires j < |ps| && UniqueIds(ps)
    ensures Filter(ps, OtherId(ps[j].id)) == ps[..j] + ps[j + 1..]
  {
    var keep := OtherId(ps[j].id);
    var before, after := ps[..j], ps[j + 1..];
    assert ps == before + [ps[j]] + after;
    forall i | 0 <= i < |before| ensures keep(before[i]) {
      assert before[i] == ps[i];
    }
    forall i | 0 <= i < |after| ensures keep(after[i]) {
      assert after[i] == ps[j + 1 + i];
    }
    FilterKeepsAll(before, keep);
    FilterKeepsAll(after, keep);
    FilterAppend(before + [ps[j]], after, keep);
    FilterAppend(before, [ps[j]], keep);
    assert Filter([ps[j]], keep) == [];
  }

  lemma RemoveUniquePackage(s: AppSettings, j: nat)
    requires |s.packages| > 1 && j < |s.packages|
    requires UniqueIds(s.packages)
    ensures RemovePackage(s, s.packages[j].id).packages == s.packages[..j] + s.packages[j + 1..]
  {
    FilterUniqueId(s.packages, j);
  }

  /** Removing the package that `AddPackage` just added, under a fresh id,
      restores the tree. */
  lemma AddThenRemovePackage(s: AppSettings, newId: string)
    requires |s.packages| >= 1
    requires !HasId(s.packages, newId)
    ensures RemovePackage(AddPackage(s, newId), newId) == s
  {
    var keep := OtherId(newId);
    var added := Package(newId, NewPackageName, NewPackageSpeed, NewPackagePrice);
    FilterAppend(s.packages, [added], keep);
    FilterKeepsAll(s.packages, keep);
    assert Filter([added], keep) == [];
  }

  /** `updatePackage(id, k, v)`: field `k` of every package with that id
      becomes `v`; ids, the other fields and the other packages are kept. */
  function UpdatePackage(s: AppSettings, id: string, k: PackageKey, v: string): (r: AppSettings)
    ensures r == s.(packages := r.packages)
    ensures |r.packages| == |s.packages|
    ensures forall i :: 0 <= i < |s.packages| ==> r.packages[i].id == s.packages[i].id
    ensures forall i :: 0 <= i < |s.packages| && s.packages[i].id == id ==>
      r.packages[i].Get(k) == v && forall k' :: k' != k ==> r.packages[i].Get(k') == s.packages[i].Get(k')
    ensures forall i :: 0 <= i < |s.packages| && s.packages[i].id != id ==> r.packages[i] == s.packages[i]
  {
    var ps := s.packages;
    s.(packages := seq(|ps|, i requires 0 <= i < |ps| => if ps[i].id == id then ps[i].With(k, v) else ps[i]))
  }

  /** An id no package has leaves the tree as it was. */
  lemma UpdateAbsentPackage(s: AppSettings, id: string, k: PackageKey, v: string)
    requires !HasId(s.packages, id)
    ensures UpdatePackage(s, id, k, v) == s
  {
    assert UpdatePackage(s, id, k, v).packages == s.packages;
  }

  /** Writing back the value a field had undoes an update. */
  lemma UpdatePackageRestore(s: AppSettings, id: string, k: PackageKey, v: string, previous: string)
    requires forall i :: 0 <= i < |s.packages| && s.packages[i].id == id ==> s.packages[i].Get(k) == previous
    ensures UpdatePackage(UpdatePackage(s, id, k, v), id, k, previous) == s
  {
    var r := UpdatePackage(UpdatePackage(s, id, k, v), id, k, previous);
    forall i | 0 <= i < |s.packages| ensures r.packages[i] == s.packages[i] {
      if s.packages[i].id == id {
        PackageExtensional(r.packages[i], s.packages[i]);
      }
    }
    assert r.packages == s.packages;
  }

  /** The second of two updates of the same field wins. */
  lemma UpdatePackageTwice(s: AppSettings, id: string, k: PackageKey, v: string, w: string)
    ensures UpdatePackage(UpdatePackage(s, id, k, v), id, k, w) == UpdatePackage(s, id, k, w)
  {
    var a := UpdatePackage(UpdatePackage(s, id, k, v), id, k, w);
    var b := UpdatePackage(s, id, k, w);
    forall i | 0 <= i < |s.packages| ensures a.packages[i] == b.packages[i] {
      if s.packages[i].id == id {
        PackageExtensional(a.packages[i], b.packages[i]);
      }
    }
    assert a.packages == b.packages;
  }

  // ---------------------------------------------------------------------
  // Sales points
  // ---------------------------------------------------------------------

  /** The name `addSalesPoint` gives the `n`-th sales point. */
  function SalesPointLabel(n: nat): string {
    "نقطة بيع " + Decimal.NatToString(n)
  }

  /** Different positions get different labels. */
  lemma SalesPointLabelInjective(m: nat, n: nat)
    requires SalesPointLabel(m) == SalesPointLabel(n)
    ensures m == n
  {
    var prefix := "نقطة بيع ";
    assert Decimal.NatToString(m) == SalesPointLabel(m)[|prefix|..];
    assert Decimal.NatToString(n) == SalesPointLabel(n)[|prefix|..];
    Decimal.NatToStringInjective(m, n);
  }

  /** The default sales points carry the labels `addSalesPoint` would have
      given them. */
  lemma DefaultSalesPointLabels()
    ensures Default.salesPoints == [SalesPointLabel(1), SalesPointLabel(2), SalesPointLabel(3)]
  {
    assert Default.salesPoints == ["نقطة بيع 1", "نقطة بيع 2", "نقطة بيع 3"];
    assert Decimal.NatToString(1) == "1";
    assert SalesPointLabel(1) == "نقطة بيع 1";
    assert Decimal.NatToString(2) == "2";
    assert SalesPointLabel(2) == "نقطة بيع 2";
    assert Decimal.NatToString(3) == "3";
    assert SalesPointLabel(3) == "نقطة بيع 3";
  }

  /** `addSalesPoint`: a new sales point labelled with its 1-based position. */
  function AddSalesPoint(s: AppSettings): (r: AppSettings)
    ensures r == s.(salesPoints := r.salesPoints)
    ensures |r.salesPoints| == |s.salesPoints| + 1
    ensures r.salesPoints[..|s.salesPoints|] == s.salesPoints
    ensures r.salesPoints[|s.salesPoints|] == SalesPointLabel(|r.salesPoints|)
  {
    s.(salesPoints := s.salesPoints + [SalesPointLabel(|s.salesPoints| + 1)])
  }

  /** `removeSalesPoint(i)`: the point at `i` dropped, the rest kept in order;
      an index outside the list removes nothing. The delete button is
      disabled while only one sales point is left. */
  function RemoveSalesPoint(s: AppSettings, i: int): (r: AppSettings)
    requires |s.salesPoints| > 1
    ensures r == s.(salesPoints := r.salesPoints)
    ensures 0 <= i < |s.salesPoints| ==>
      && |r.salesPoints| == |s.salesPoints| - 1
      && r.salesPoints[..i] == s.salesPoints[..i]
      && r.salesPoints[i..] == s.salesPoints[i + 1..]
    ensures !(0 <= i < |s.salesPoints|) ==> r == s
  {
    s.(salesPoints := RemoveAt(s.salesPoints, i))
  }

  /** Removing the point `AddSalesPoint` just appended restores the tree. */
  lemma AddThenRemoveSalesPoint(s: AppSettings)
    requires |s.salesPoints| >= 1
    ensures RemoveSalesPoint(AddSalesPoint(s), |s.salesPoints|) == s
  {
    var r := RemoveSalesPoint(AddSalesPoint(s), |s.salesPoints|);
    assert r.salesPoints == r.salesPoints[..|s.salesPoints|];
  }

  /** `updateSalesPoint(i, v)`: the point at `i` becomes `v`, all others and
      the length are kept. */
  function UpdateSalesPoint(s: AppSettings, i: int, v: string): (r: AppSettings)
    ensures r == s.(salesPoints := r.salesPoints)
    ensures |r.salesPoints| == |s.salesPoints|
    ensures 0 <= i < |s.salesPoints| ==> r.salesPoints[i] == v
    ensures forall j :: 0 <= j < |s.salesPoints| && j != i ==> r.salesPoints[j] == s.salesPoints[j]
  {
    var sp := s.salesPoints;
    s.(salesPoints := seq(|sp|, j requires 0 <= j < |sp| => if j == i then v else sp[j]))
  }

  /** The update agrees with sequence update in range and is the identity
      outside it; writing back the current value changes nothing. */
  lemma UpdateSalesPointMeaning(s: AppSettings, i: int, v: string)
    ensures 0 <= i < |s.salesPoints| ==> UpdateSalesPoint(s, i, v).salesPoints == s.salesPoints[i := v]
    ensures !(0 <= i < |s.salesPoints|) ==> UpdateSalesPoint(s, i, v) == s
    ensures 0 <= i < |s.salesPoints| ==> UpdateSalesPoint(s, i, s.salesPoints[i]) == s
  {
    assert !(0 <= i < |s.salesPoints|) ==> UpdateSalesPoint(s, i, v).salesPoints == s.salesPoints;
    if 0 <= i < |s.salesPoints| {
      assert UpdateSalesPoint(s, i, s.salesPoints[i]).salesPoints == s.salesPoints;
    }
  }

  // ---------------------------------------------------------------------
  // Edits as a whole
  // ---------------------------------------------------------------------

  /** One change the settings form can make. */
  datatype Edit =
    | SetLeaf(field: Field, value: string)
    | AddPkg(newId: string)
    | RemovePkg(id: string)
    | UpdatePkg(pkgId: string, key: PackageKey, pkgValue: string)
    | AddPoint
    | RemovePoint(index: int)
    | UpdatePoint(pointIndex: int, pointValue: string)

  /** What the form allows in state `s`: a delete button exists only for a
      package or point that is shown and is disabled at the last one, and a
      new package's id is assumed fresh (the page relies on the clock). */
  predicate Enabled(s: AppSettings, e: Edit) {
    match e
    case AddPkg(newId) => !HasId(s.packages, newId)
    case RemovePkg(id) => |s.packages| > 1 && HasId(s.packages, id)
    case RemovePoint(i) => |s.salesPoints| > 1 && 0 <= i < |s.salesPoints|
    case _ => true
  }

  function Apply(s: AppSettings, e: Edit): AppSettings
    requires Enabled(s, e)
  {
    match e
    case SetLeaf(f, v) => s.Set(f, v)
    case AddPkg(newId) => AddPackage(s, newId)
    case RemovePkg(id) => RemovePackage(s, id)
    case UpdatePkg(id, k, v) => UpdatePackage(s, id, k, v)
    case AddPoint => AddSalesPoint(s)
    case RemovePoint(i) => RemoveSalesPoint(s, i)
    case UpdatePoint(i, v) => UpdateSalesPoint(s, i, v)
  }

  /** The structural invariant of the tree: at least one package and one
      sales point, and package ids unique. */
  predicate Wf(s: AppSettings) {
    |s.packages| >= 1 && |s.salesPoints| >= 1 && UniqueIds(s.packages)
  }

  lemma DefaultWf()
    ensures Wf(Default)
  {
  }

  lemma AddPackageKeepsUnique(s: AppSettings, newId: string)
    requires UniqueIds(s.packages) && !HasId(s.packages, newId)
    ensures UniqueIds(AddPackage(s, newId).packages)
  {
    var r := AddPackage(s, newId);
    forall i, j | 0 <= i < j < |r.packages| ensures r.packages[i].id != r.packages[j].id {
      assert r.packages[i] == s.packages[i];
      if j < |s.packages| {
        assert r.packages[j] == s.packages[j];
      }
    }
  }

  /** With unique ids, removing a present id leaves one package fewer, still
      with unique ids. */
  lemma RemovePackageKeepsUnique(s: AppSettings, id: string)
    requires |s.packages| > 1 && UniqueIds(s.packages) && HasId(s.packages, id)
    ensures |RemovePackage(s, id).packages| == |s.packages| - 1
    ensures UniqueIds(RemovePackage(s, id).packages)
  {
    var j :| 0 <= j < |s.packages| && s.packages[j].id == id;
    RemoveUniquePackage(s, j);
    UniqueIdsWithout(s.packages, j);
  }

  /** Dropping one package keeps the ids unique. */
  lemma UniqueIdsWithout(ps: seq<Package>, j: nat)
    requires j < |ps| && UniqueIds(ps)
    ensures UniqueIds(ps[..j] + ps[j + 1..])
  {
    var rs := ps[..j] + ps[j + 1..];
    forall a, b | 0 <= a < b < |rs| ensures rs[a].id != rs[b].id {
      var a' := if a < j then a else a + 1;
      var b' := if b < j then b else b + 1;
      assert rs[a] == ps[a'] && rs[b] == ps[b'];
    }
  }

  /** Every edit the form allows keeps the tree well formed. */
  lemma {:induction false} ApplyPreservesWf(s: AppSettings, e: Edit)
    requires Wf(s) && Enabled(s, e)
    ensures Wf(Apply(s, e))
  {
    match e
    case AddPkg(newId) => AddPackageKeepsUnique(s, newId);
    case RemovePkg(id) => RemovePackageKeepsUnique(s, id);
    case UpdatePkg(id, k, v) =>
      var r := UpdatePackage(s, id, k, v);
      assert forall i :: 0 <= i < |r.packages| ==> r.packages[i].id == s.packages[i].id;
    case _ =>
  }

  // ---------------------------------------------------------------------
  // Persistence
  // ---------------------------------------------------------------------

  /** The storage key of the settings tree. */
  const SettingsKey: string := "khanfar-settings"

  /** `getSettings`, and equally the panel's load on mount: the stored tree
      when there is one and it parses, the defaults otherwise. */
  function GetSettings(store: Store, json: Codec<AppSettings>): (r: AppSettings)
    ensures GetItem(store, SettingsKey).None? ==> r == Default
    ensures GetItem(store, SettingsKey).Some? && json.decode(store[SettingsKey]).None? ==> r == Default
    ensures GetItem(store, SettingsKey).Some? && json.decode(store[SettingsKey]).Some? ==>
      r == json.decode(store[SettingsKey]).value
  {
    match GetItem(store, SettingsKey)
    case None => Default
    case Some(raw) => json.decode(raw).GetOr(Default)
  }

  /** `handleSave`: the whole tree written under its key; nothing else in
      storage changes. */
  function HandleSave(store: Store, json: Codec<AppSettings>, s: AppSettings): (r: Store)
    ensures SettingsKey in r && r[SettingsKey] == json.encode(s)
    ensures forall k :: k != SettingsKey ==> (k in r <==> k in store)
    ensures forall k :: k != SettingsKey && k in store ==> r[k] == store[k]
  {
    SetItem(store, SettingsKey, json.encode(s))
  }

  /** Reading after a save gives back the tree that was saved. */
  lemma SaveThenGet(store: Store, json: Codec<AppSettings>, s: AppSettings)
    requires Faithful(json)
    ensures GetSettings(HandleSave(store, json, s), json) == s
  {
    assert json.encode(s) != "" && json.decode(json.encode(s)) == Some(s);
  }
}
