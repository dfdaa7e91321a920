/** The side menu: its fixed items, which of them the signed-in user may see, and which is active. */
module Sidebar {
  import opened Wrappers
  import opened Strings
  import Auth

  datatype MenuItem = MenuItem(title: string, path: string, icon: string, permissions: Option<seq<string>>)

  const MENU_ITEMS: seq<MenuItem> := [
    MenuItem("Dashboard", "/", "fa-tachometer-alt", None),
    MenuItem("Alunos", "/alunos", "fa-user-graduate", None),
    MenuItem("Professores", "/professores", "fa-chalkboard-teacher", None),
    MenuItem("Disciplinas", "/disciplinas", "fa-book", None),
    MenuItem("Escolas", "/escolas", "fa-school", None),
    MenuItem("Relatórios", "/relatorios", "fa-chart-bar", Some(["admin"])),
    MenuItem("Configurações", "/configuracoes", "fa-cog", Some(["admin"]))
  ]

  /** An item without a permission list is for everyone; otherwise the user's role must be in it. */
  function HasPermission(item: MenuItem, user: Option<Auth.User>): bool {
    if item.permissions.None? then true
    else user.Some? && user.value.role in item.permissions.value
  }

  /** The dashboard link is active only on `/`; any other link on every path that starts with
    * its own, whether or not a segment boundary follows. */
  function IsActive(path: string, pathname: string): bool {
    if path == "/" then pathname == "/" else StartsWith(pathname, path)
  }

  /** The items the menu renders, in menu order. */
  function VisibleItems(items: seq<MenuItem>, user: Option<Auth.User>): (r: seq<MenuItem>)
    ensures |r| <= |items|
    ensures forall i :: 0 <= i < |r| ==> HasPermission(r[i], user)
  {
    if items == [] then []
    else (if HasPermission(items[0], user) then [items[0]] else []) + VisibleItems(items[1..], user)
  }

  lemma {:induction false} VisibleWhenAllowed(items: seq<MenuItem>, user: Option<Auth.User>)
    requires forall i :: 0 <= i < |items| ==> HasPermission(items[i], user)
    ensures VisibleItems(items, user) == items
  {
    if items != [] {
      VisibleWhenAllowed(items[1..], user);
      assert [items[0]] + items[1..] == items;
    }
  }

  lemma {:induction false} HiddenWhenRefused(items: seq<MenuItem>, user: Option<Auth.User>)
    requires forall i :: 0 <= i < |items| ==> !HasPermission(items[i], user)
    ensures VisibleItems(items, user) == []
  {
    if items != [] {
      HiddenWhenRefused(items[1..], user);
    }
  }

  lemma {:induction false} VisibleConcat(a: seq<MenuItem>, b: seq<MenuItem>, user: Option<Auth.User>)
    ensures VisibleItems(a + b, user) == VisibleItems(a, user) + VisibleItems(b, user)
  {
    if a == [] {
      assert a + b == b;
    } else {
      assert (a + b)[1..] == a[1..] + b;
      VisibleConcat(a[1..], b, user);
    }
  }

  /** Every item the menu shows comes from the list. */
  lemma {:induction false} VisibleFromList(items: seq<MenuItem>, user: Option<Auth.User>)
    ensures forall i :: 0 <= i < |VisibleItems(items, user)| ==> VisibleItems(items, user)[i] in items
  {
    if items != [] {
      VisibleFromList(items[1..], user);
      var rest := VisibleItems(items[1..], user);
      var r := VisibleItems(items, user);
      forall i | 0 <= i < |r| ensures r[i] in items {
        if HasPermission(items[0], user) && i > 0 {
          assert r[i] == rest[i - 1];
        } else if !HasPermission(items[0], user) {
          assert r[i] == rest[i];
        }
      }
    }
  }

  predicate IsAdmin(user: Option<Auth.User>) {
    user.Some? && user.value.role == "admin"
  }

  /** An administrator sees all seven items; anyone else, signed in or not, the first five. */
  lemma MenuVisibility(user: Option<Auth.User>)
    ensures IsAdmin(user) ==> VisibleItems(MENU_ITEMS, user) == MENU_ITEMS
    ensures !IsAdmin(user) ==> VisibleItems(MENU_ITEMS, user) == MENU_ITEMS[..5]
  {
    var open, restricted := MENU_ITEMS[..5], MENU_ITEMS[5..];
    assert MENU_ITEMS == open + restricted;
    VisibleConcat(open, restricted, user);
    OpenItems();
    VisibleWhenAllowed(open, user);
    RestrictedItems();
    AdminOnly(restricted, user);
    if IsAdmin(user) {
      VisibleWhenAllowed(restricted, user);
    } else {
      HiddenWhenRefused(restricted, user);
      assert open + [] == open;
    }
  }

  /** The first five items carry no permission list. */
  lemma OpenItems()
    ensures forall i :: 0 <= i < |MENU_ITEMS[..5]| ==> MENU_ITEMS[..5][i].permissions.None?
  {
  }

  /** The last two items are for `admin` only. */
  lemma RestrictedItems()
    ensures forall i :: 0 <= i < |MENU_ITEMS[5..]| ==> MENU_ITEMS[5..][i].permissions == Some(["admin"])
  {
  }

  lemma AdminOnly(items: seq<MenuItem>, user: Option<Auth.User>)
    requires forall i :: 0 <= i < |items| ==> items[i].permissions == Some(["admin"])
    ensures forall i :: 0 <= i < |items| ==> (HasPermission(items[i], user) <==> IsAdmin(user))
  {
  }

  /** Signed out, exactly the items without a permission list are allowed. */
  lemma SignedOutSeesPublic(item: MenuItem)
    ensures HasPermission(item, None) <==> item.permissions.None?
  {
  }

  /** A link is active on its own page and, except the dashboard, on every page below it. */
  lemma ActiveBelow(path: string, pathname: string, suffix: string)
    ensures IsActive(path, path)
    ensures IsActive(path, pathname) ==> |path| <= |pathname|
    ensures path != "/" && IsActive(path, pathname) ==> IsActive(path, pathname + suffix)
  {
    assert path[..|path|] == path;
    if path != "/" && IsActive(path, pathname) {
      assert (pathname + suffix)[..|path|] == pathname[..|path|];
    }
  }

  /** The prefix test is on raw text: `/alunos` is also active on `/alunosx`. */
  lemma RawPrefixActive()
    ensures IsActive("/alunos", "/alunos/3/editar")
    ensures IsActive("/alunos", "/alunosx")
    ensures !IsActive("/", "/alunos")
  {
    assert "/alunos/3/editar"[..7] == "/alunos";
    assert "/alunosx"[..7] == "/alunos";
  }
}
