/**
 * The sidebar menu: which items are shown, where each links, and which one
 * is highlighted for the current path.
 */
module SidebarNav {
  import opened Common
  import Text

  /** A menu entry; `icon` names an icon of the icon set. */
  datatype NavItem = NavItem(title: string, href: string, icon: string, disabled: bool, labelText: Option<string>)

  /** One rendered link. */
  datatype NavLink = NavLink(title: string, target: string, active: bool, disabled: bool, labelText: Option<string>)

  /** `pathname === href || (pathname.startsWith(href) && href !== '/')`. */
  function IsActive(pathname: string, href: string): (active: bool)
    ensures active ==> Text.StartsWith(pathname, href)
  {
    assert pathname == href ==> pathname[..|href|] == href;
    pathname == href || (Text.StartsWith(pathname, href) && href != "/")
  }

  /** The item's own path is always active. */
  lemma ExactPathIsActive(href: string)
    ensures IsActive(href, href)
  {
  }

  /** The root item is active only on the root itself. */
  lemma RootIsActiveOnlyOnRoot(pathname: string)
    ensures IsActive(pathname, "/") <==> pathname == "/"
  {
  }

  /** Any other item is active exactly on the paths that start with its href. */
  lemma {:induction false} OtherItemsMatchPrefixes(pathname: string, href: string)
    requires href != "/"
    ensures IsActive(pathname, href) <==> Text.StartsWith(pathname, href)
  {
    if pathname == href {
      assert pathname[..|href|] == href;
    }
  }

  /** The prefix test is not segment-aware: '/admin' is active on '/administrator'. */
  lemma {:induction false} PrefixIsNotSegmentAware()
    ensures IsActive("/administrator", "/admin")
  {
    assert "/administrator"[..|"/admin"|] == "/admin";
  }

  /** The items whose icon exists, in input order. */
  function KeepKnownIcons(items: seq<NavItem>, knownIcons: set<string>): (r: seq<NavItem>)
    ensures |r| <= |items|
    ensures forall it :: it in r <==> it in items && it.icon in knownIcons
  {
    if items == [] then []
    else
      var rest := KeepKnownIcons(items[1..], knownIcons);
      assert forall it :: it in items <==> it == items[0] || it in items[1..];
      (if items[0].icon in knownIcons then [items[0]] else []) + rest
  }

  /** Dropping items preserves order: filtering a concatenation filters each part. */
  lemma {:induction false} KeepKnownIconsConcat(a: seq<NavItem>, b: seq<NavItem>, knownIcons: set<string>)
    ensures KeepKnownIcons(a + b, knownIcons) == KeepKnownIcons(a, knownIcons) + KeepKnownIcons(b, knownIcons)
  {
    if a == [] {
      assert a + b == b;
    } else {
      assert (a + b)[0] == a[0];
      assert (a + b)[1..] == a[1..] + b;
      KeepKnownIconsConcat(a[1..], b, knownIcons);
    }
  }

  /** The link for a shown item: disabled items point to '#'. */
  function LinkFor(item: NavItem, pathname: string): (l: NavLink)
    ensures l.target == "#" <==> item.disabled || item.href == "#"
    ensures !item.disabled ==> l.target == item.href
    ensures l.active <==> IsActive(pathname, item.href)
    ensures l.title == item.title && l.labelText == item.labelText && l.disabled == item.disabled
  {
    NavLink(item.title, if item.disabled then "#" else item.href, IsActive(pathname, item.href), item.disabled, item.labelText)
  }

  /**
   * `SidebarNav`: nothing (`None`) for a missing or empty item list;
   * otherwise a menu with one link per item whose icon exists, in order.
   */
  function RenderNav(items: Option<seq<NavItem>>, pathname: string, knownIcons: set<string>): (r: Option<seq<NavLink>>)
    ensures r.None? <==> items.None? || items.value == []
    ensures r.Some? ==> |r.value| == |KeepKnownIcons(items.value, knownIcons)|
    ensures r.Some? ==> forall k :: 0 <= k < |r.value| ==>
      r.value[k] == LinkFor(KeepKnownIcons(items.value, knownIcons)[k], pathname)
  {
    if items.None? || items.value == [] then None
    else
      var shown := KeepKnownIcons(items.value, knownIcons);
      Some(seq(|shown|, k requires 0 <= k < |shown| => LinkFor(shown[k], pathname)))
  }

  /** A non-empty list whose icons are all unknown still renders the menu, with no links. */
  lemma {:induction false} UnknownIconsGiveEmptyMenu(items: seq<NavItem>, pathname: string, knownIcons: set<string>)
    requires items != [] && forall k :: 0 <= k < |items| ==> items[k].icon !in knownIcons
    ensures RenderNav(Some(items), pathname, knownIcons) == Some([])
  {
    var shown := KeepKnownIcons(items, knownIcons);
    if shown != [] {
      assert shown[0] in items;
    }
  }
}
