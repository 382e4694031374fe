/** The dialog store: the open dialogs keyed by id, the current view, and the dialogs stashed
    per view while another view is shown. A dialog whose props carry a truthy `preventClose` is
    persistent: opening another dialog and `closeAll` keep it, and `closeDialog` refuses it. */
module DialogStore {
  import opened Common

  /** A prop value as far as truthiness goes. */
  datatype PropValue = Bool(b: bool) | Number(n: int) | Text(s: string) | Null | Object

  predicate Truthy(v: PropValue) {
    match v
    case Bool(b) => b
    case Number(n) => n != 0
    case Text(s) => s != ""
    case Null => false
    case Object => true
  }

  type Props = map<string, PropValue>

  datatype Position = Dock | At(x: int, y: int)

  /** A dialog; `kind` is the dialog type. */
  datatype DialogSpec = DialogSpec(
    id: string, kind: string, props: Props, collapsed: bool, zIndex: int, position: Position,
    viewSpecific: Option<string>)

  /** What `openDialog` receives: every field but the type may be left out. */
  datatype OpenRequest = OpenRequest(
    id: Option<string>, kind: string, props: Option<Props>, collapsed: Option<bool>, position: Option<Position>,
    viewSpecific: Option<string>)

  /** The dialog `openDialog` adds: no props means empty props, not collapsed and docked unless
      the request says otherwise. */
  function NewDialog(spec: OpenRequest, id: string, zIndex: int): (d: DialogSpec)
    ensures d.id == id && d.kind == spec.kind && d.zIndex == zIndex && d.viewSpecific == spec.viewSpecific
    ensures d.props == spec.props.GetOr(map[]) && d.collapsed == spec.collapsed.GetOr(false)
    ensures d.position == spec.position.GetOr(Dock)
  {
    DialogSpec(id, spec.kind, if spec.props.Some? then spec.props.value else map[],
               if spec.collapsed.Some? then spec.collapsed.value else false, zIndex,
               if spec.position.Some? then spec.position.value else Dock, spec.viewSpecific)
  }

  /** A persistent request meets a surviving dialog of the same type. */
  predicate ReusesDialog(spec: OpenRequest, survivors: map<string, DialogSpec>) {
    spec.props.Some? && PreventsClose(spec.props.value) && exists k :: k in survivors && survivors[k].kind == spec.kind
  }

  /** `props.preventClose` is truthy. */
  predicate PreventsClose(props: Props) {
    "preventClose" in props && Truthy(props["preventClose"])
  }

  predicate Persistent(d: DialogSpec) { PreventsClose(d.props) }

  predicate NotBoundTo(view: string, d: DialogSpec) { d.viewSpecific != Some(view) }

  /** The entries of `m` whose dialog satisfies `keep`. */
  function Restrict(m: map<string, DialogSpec>, keep: DialogSpec -> bool): map<string, DialogSpec> {
    map k | k in m && keep(m[k]) :: m[k]
  }

  /** Every dialog is stored under its own id. */
  predicate KeyedById(m: map<string, DialogSpec>) {
    forall k :: k in m ==> m[k].id == k
  }

  lemma RestrictKeyedById(m: map<string, DialogSpec>, keep: DialogSpec -> bool)
    requires KeyedById(m)
    ensures KeyedById(Restrict(m, keep))
  {
  }

  /** `s` holds exactly the dialogs of `m` bound to `view` (`Object.values(m).filter(...)`). */
  ghost predicate StashOf(s: seq<DialogSpec>, m: map<string, DialogSpec>, view: string) {
    forall d :: d in s <==> d in m.Values && d.viewSpecific == Some(view)
  }

  /** `s.forEach(d => r[d.id] = d)`: later dialogs overwrite earlier ones with the same id. */
  function ById(s: seq<DialogSpec>): (r: map<string, DialogSpec>)
    ensures KeyedById(r)
    ensures forall k :: k in r ==> r[k] in s
    ensures forall d :: d in s ==> d.id in r
  {
    if s == [] then map[]
    else
      var front := s[..|s| - 1];
      assert forall d :: d in s <==> d in front || d == s[|s| - 1];
      ById(front)[s[|s| - 1].id := s[|s| - 1]]
  }

  /** Keeping the persistent dialogs twice is keeping them once. */
  lemma KeepPersistentIdempotent(m: map<string, DialogSpec>)
    ensures Restrict(Restrict(m, Persistent), Persistent) == Restrict(m, Persistent)
    ensures forall k :: k in Restrict(m, Persistent) <==> k in m && Persistent(m[k])
  {
  }

  /** Stashing the dialogs of a view and putting them back yields the original dialogs, provided
      each dialog sits under its own id. */
  lemma {:induction false} CloseThenRestore(dialogs: map<string, DialogSpec>, view: string, s: seq<DialogSpec>)
    requires KeyedById(dialogs)
    requires StashOf(s, dialogs, view)
    ensures Restrict(dialogs, d => NotBoundTo(view, d)) + ById(s) == dialogs
  {
    var r := Restrict(dialogs, d => NotBoundTo(view, d)) + ById(s);
    var b := ById(s);
    forall k | k in b ensures k in dialogs && b[k] == dialogs[k] {
      var d := b[k];
      assert d in s;
      var k' :| k' in dialogs && dialogs[k'] == d;
      assert d.id == k' && d.id == k;
    }
    forall k | k in dialogs ensures k in r && r[k] == dialogs[k] {
      if !NotBoundTo(view, dialogs[k]) {
        assert dialogs[k] in dialogs.Values;
        assert dialogs[k] in s;
      }
    }
    assert r.Keys == dialogs.Keys;
  }

  /** `Object.entries(m).forEach(...)` copying the entries that `keep` accepts. */
  method KeepWhere(m: map<string, DialogSpec>, keep: DialogSpec -> bool) returns (r: map<string, DialogSpec>)
    ensures r == Restrict(m, keep)
  {
    r := map[];
    var todo := m.Keys;
    while todo != {}
      invariant todo <= m.Keys
      invariant r == Restrict(m - todo, keep)
      decreases |todo|
    {
      var k :| k in todo;
      if keep(m[k]) {
        r := r[k := m[k]];
      }
      todo := todo - {k};
    }
    assert m - {} == m;
  }

  /** `Object.values(m).filter(d => d.viewSpecific === view)`. */
  method ValuesBoundTo(m: map<string, DialogSpec>, view: string) returns (s: seq<DialogSpec>)
    ensures StashOf(s, m, view)
  {
    s := [];
    var todo := m.Keys;
    while todo != {}
      invariant todo <= m.Keys
      invariant forall d :: d in s <==> exists k :: k in m && k !in todo && m[k] == d && d.viewSpecific == Some(view)
      decreases |todo|
    {
      var k :| k in todo;
      if m[k].viewSpecific == Some(view) {
        s := s + [m[k]];
      }
      todo := todo - {k};
    }
  }

  /** `Math.max(0, ...Object.values(m).map(d => d.zIndex))`. */
  method MaxZIndex(m: map<string, DialogSpec>) returns (mx: int)
    ensures mx >= 0
    ensures forall k :: k in m ==> m[k].zIndex <= mx
    ensures mx == 0 || exists k :: k in m && m[k].zIndex == mx
  {
    mx := 0;
    var todo := m.Keys;
    while todo != {}
      invariant todo <= m.Keys
      invariant mx >= 0
      invariant forall k :: k in m && k !in todo ==> m[k].zIndex <= mx
      invariant mx == 0 || exists k :: k in m && m[k].zIndex == mx
      decreases |todo|
    {
      var k :| k in todo;
      if m[k].zIndex > mx {
        mx := m[k].zIndex;
      }
      todo := todo - {k};
    }
  }

  class DialogStore {
    var dialogs: map<string, DialogSpec>
    /** `null` before any view is set. */
    var currentView: Option<string>
    var viewSpecificDialogs: map<string, seq<DialogSpec>>

    predicate Valid()
      reads this
    {
      KeyedById(dialogs)
    }

    constructor()
      ensures Valid()
      ensures dialogs == map[] && currentView.None? && viewSpecificDialogs == map[]
    {
      dialogs := map[];
      currentView := None;
      viewSpecificDialogs := map[];
    }

    /** `openDialog`. A persistent request reuses a persistent dialog of the same type if there is
        one; otherwise every non-persistent dialog is closed and the new one added on top of the
        survivors. `freshId` is the generated id used when the request has none. */
    method OpenDialog(spec: OpenRequest, freshId: string) returns (id: string)
      requires Valid()
      modifies this
      ensures Valid()
      ensures currentView == old(currentView) && viewSpecificDialogs == old(viewSpecificDialogs)
      ensures var survivors := Restrict(old(dialogs), Persistent);
              if ReusesDialog(spec, survivors)
              then id in survivors && survivors[id].kind == spec.kind && dialogs == old(dialogs)
              else id == spec.id.GetOr(freshId) && dialogs == survivors[id := NewDialog(spec, id, |survivors| + 1)]
    {
      var preserved := KeepWhere(dialogs, Persistent);
      RestrictKeyedById(dialogs, Persistent);
      if spec.props.Some? && PreventsClose(spec.props.value) && exists k :: k in preserved && preserved[k].kind == spec.kind {
        var k :| k in preserved && preserved[k].kind == spec.kind;
        assert preserved[k].id == k;
        return preserved[k].id;
      }
      id := if spec.id.Some? then spec.id.value else freshId;
      dialogs := preserved[id := NewDialog(spec, id, |preserved| + 1)];
    }

    /** `closeAll`: keeps exactly the persistent dialogs. */
    method CloseAll()
      requires Valid()
      modifies this
      ensures Valid()
      ensures dialogs == Restrict(old(dialogs), Persistent)
      ensures currentView == old(currentView) && viewSpecificDialogs == old(viewSpecificDialogs)
    {
      dialogs := KeepWhere(dialogs, Persistent);
    }

    /** `forceCloseAll`. */
    method ForceCloseAll()
      modifies this
      ensures Valid()
      ensures dialogs == map[]
      ensures currentView == old(currentView) && viewSpecificDialogs == old(viewSpecificDialogs)
    {
      dialogs := map[];
    }

    /** `closeDialog`: removes the dialog unless it is unknown or persistent. */
    method CloseDialog(id: string)
      requires Valid()
      modifies this
      ensures Valid()
      ensures id !in old(dialogs) || Persistent(old(dialogs)[id]) ==> dialogs == old(dialogs)
      ensures id in old(dialogs) && !Persistent(old(dialogs)[id]) ==> dialogs == old(dialogs) - {id}
      ensures currentView == old(currentView) && viewSpecificDialogs == old(viewSpecificDialogs)
    {
      if id !in dialogs || PreventsClose(dialogs[id].props) {
        return;
      }
      dialogs := dialogs - {id};
    }

    /** `toggleCollapse`: flips the collapsed flag of that dialog only. */
    method ToggleCollapse(id: string)
      requires Valid()
      modifies this
      ensures Valid()
      ensures id !in old(dialogs) ==> dialogs == old(dialogs)
      ensures id in old(dialogs) ==>
                dialogs == old(dialogs)[id := old(dialogs)[id].(collapsed := !old(dialogs)[id].collapsed)]
      ensures currentView == old(currentView) && viewSpecificDialogs == old(viewSpecificDialogs)
    {
      if id !in dialogs {
        return;
      }
      var d := dialogs[id];
      dialogs := dialogs[id := d.(collapsed := !d.collapsed)];
    }

    /** `bringToFront`: the dialog's zIndex becomes one above the highest (and at least 1), so it
        is strictly above every other dialog. */
    method BringToFront(id: string)
      requires Valid()
      modifies this
      ensures Valid()
      ensures id !in old(dialogs) ==> dialogs == old(dialogs)
      ensures id in old(dialogs) ==>
                && dialogs.Keys == old(dialogs).Keys
                && dialogs[id] == old(dialogs)[id].(zIndex := dialogs[id].zIndex)
                && dialogs[id].zIndex >= 1
                && (forall k :: k in old(dialogs) ==> old(dialogs)[k].zIndex < dialogs[id].zIndex)
                && (dialogs[id].zIndex == 1 || exists k :: k in old(dialogs) && old(dialogs)[k].zIndex + 1 == dialogs[id].zIndex)
                && (forall k :: k in dialogs && k != id ==> dialogs[k] == old(dialogs)[k]
                                                            && dialogs[k].zIndex < dialogs[id].zIndex)
      ensures currentView == old(currentView) && viewSpecificDialogs == old(viewSpecificDialogs)
    {
      var mx := MaxZIndex(dialogs);
      if id !in dialogs {
        return;
      }
      var d := dialogs[id];
      dialogs := dialogs[id := d.(zIndex := mx + 1)];
    }

    /** `setDialogProps`: shallow-merges the given props over the dialog's own. */
    method SetDialogProps(id: string, props: Props)
      requires Valid()
      modifies this
      ensures Valid()
      ensures id !in old(dialogs) ==> dialogs == old(dialogs)
      ensures id in old(dialogs) ==>
                && id in dialogs
                && dialogs == old(dialogs)[id := old(dialogs)[id].(props := dialogs[id].props)]
                && (forall p :: p in dialogs[id].props <==> p in props || p in old(dialogs)[id].props)
                && (forall p :: p in props ==> dialogs[id].props[p] == props[p])
                && (forall p :: p in old(dialogs)[id].props && p !in props ==>
                      dialogs[id].props[p] == old(dialogs)[id].props[p])
      ensures currentView == old(currentView) && viewSpecificDialogs == old(viewSpecificDialogs)
    {
      if id !in dialogs {
        return;
      }
      var d := dialogs[id];
      dialogs := dialogs[id := d.(props := d.props + props)];
    }

    /** `getDialog`. */
    method GetDialog(id: string) returns (r: Option<DialogSpec>)
      ensures r.Some? <==> id in dialogs
      ensures r.Some? ==> r.value == dialogs[id]
    {
      r := if id in dialogs then Some(dialogs[id]) else None;
    }

    /** `setCurrentView`: leaving a (truthy) view stashes its dialogs under its name and closes
        them; the view becomes `viewName` in every case. */
    method SetCurrentView(viewName: string)
      requires Valid()
      modifies this
      ensures Valid()
      ensures currentView == Some(viewName)
      ensures var previous := old(currentView);
              if previous.Some? && previous.value != "" && previous.value != viewName then
                && dialogs == Restrict(old(dialogs), d => NotBoundTo(previous.value, d))
                && previous.value in viewSpecificDialogs
                && StashOf(viewSpecificDialogs[previous.value], old(dialogs), previous.value)
                && viewSpecificDialogs == old(viewSpecificDialogs)[previous.value := viewSpecificDialogs[previous.value]]
              else dialogs == old(dialogs) && viewSpecificDialogs == old(viewSpecificDialogs)
    {
      if currentView.Some? && currentView.value != "" && currentView.value != viewName {
        var previous := currentView.value;
        var bound := ValuesBoundTo(dialogs, previous);
        viewSpecificDialogs := viewSpecificDialogs[previous := bound];
        dialogs := KeepWhere(dialogs, d => NotBoundTo(previous, d));
      }
      currentView := Some(viewName);
    }

    /** `closeViewSpecificDialogs`: stashes and closes the dialogs bound to the view; with none
        bound nothing changes. */
    method CloseViewSpecificDialogs(viewName: string)
      requires Valid()
      modifies this
      ensures Valid()
      ensures currentView == old(currentView)
      ensures (forall d :: d in old(dialogs).Values ==> d.viewSpecific != Some(viewName)) ==>
                dialogs == old(dialogs) && viewSpecificDialogs == old(viewSpecificDialogs)
      ensures (exists d :: d in old(dialogs).Values && d.viewSpecific == Some(viewName)) ==>
                && dialogs == Restrict(old(dialogs), d => NotBoundTo(viewName, d))
                && viewName in viewSpecificDialogs
                && StashOf(viewSpecificDialogs[viewName], old(dialogs), viewName)
                && viewSpecificDialogs == old(viewSpecificDialogs)[viewName := viewSpecificDialogs[viewName]]
    {
      var bound := ValuesBoundTo(dialogs, viewName);
      if |bound| == 0 {
        return;
      }
      assert bound[0] in bound;
      viewSpecificDialogs := viewSpecificDialogs[viewName := bound];
      dialogs := KeepWhere(dialogs, d => NotBoundTo(viewName, d));
    }

    /** `restoreViewSpecificDialogs`: puts the stashed dialogs back over the open ones and drops
        the stash entry; nothing changes without a non-empty stash. */
    method RestoreViewSpecificDialogs(viewName: string)
      requires Valid()
      modifies this
      ensures Valid()
      ensures currentView == old(currentView)
      ensures viewName !in old(viewSpecificDialogs) || old(viewSpecificDialogs)[viewName] == [] ==>
                dialogs == old(dialogs) && viewSpecificDialogs == old(viewSpecificDialogs)
      ensures viewName in old(viewSpecificDialogs) && old(viewSpecificDialogs)[viewName] != [] ==>
                && dialogs == old(dialogs) + ById(old(viewSpecificDialogs)[viewName])
                && viewSpecificDialogs == old(viewSpecificDialogs) - {viewName}
    {
      if viewName !in viewSpecificDialogs || |viewSpecificDialogs[viewName]| == 0 {
        return;
      }
      var storedDialogs := viewSpecificDialogs[viewName];
      var restored := RestoreAll(storedDialogs);
      dialogs := dialogs + restored;
      viewSpecificDialogs := viewSpecificDialogs - {viewName};
    }
  }

  /** The `forEach` that keys the stashed dialogs by their ids. */
  method RestoreAll(s: seq<DialogSpec>) returns (r: map<string, DialogSpec>)
    ensures r == ById(s)
  {
    r := map[];
    var i := 0;
    while i < |s|
      invariant 0 <= i <= |s|
      invariant r == ById(s[..i])
    {
      assert s[..i + 1][..i] == s[..i];
      r := r[s[i].id := s[i]];
      i := i + 1;
    }
    assert s[..|s|] == s;
  }

  /** Closing a view's dialogs and restoring them straight away gives back the open dialogs and
      leaves no stash entry for the view. */
  lemma CloseRestoreRoundTrip(dialogs: map<string, DialogSpec>, stash: map<string, seq<DialogSpec>>,
                              view: string, s: seq<DialogSpec>)
    requires KeyedById(dialogs)
    requires StashOf(s, dialogs, view) && s != []
    ensures Restrict(dialogs, d => NotBoundTo(view, d)) + ById(s) == dialogs
    ensures stash[view := s] - {view} == stash - {view}
  {
    CloseThenRestore(dialogs, view, s);
  }
}
