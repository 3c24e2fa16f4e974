/** The navigation bar: which of its items are shown. Whether the user is an admin comes
    from the `useAdminAuth` hook and is a parameter here. The desktop links and the mobile
    menu are given the same list. */
module Navbar {
  import opened Seqs

  datatype NavItem = NavItem(id: string, text: string, href: string)

  const AdminDashboardHref := "/admin-dashboard"

  /** The items the application passes in. */
  const NavbarItems: seq<NavItem> := [
    NavItem("1", "Home", "/"),
    NavItem("2", "Articles", "/articles"),
    NavItem("3", "Dashboard", AdminDashboardHref)]

  function ShownTo(isAdmin: bool): NavItem -> bool
  {
    (item: NavItem) => item.href != AdminDashboardHref || isAdmin
  }

  /** `filteredItems`. */
  function VisibleItems(items: seq<NavItem>, isAdmin: bool): (r: seq<NavItem>)
    ensures forall i :: 0 <= i < |r| ==> r[i] in items && (r[i].href != AdminDashboardHref || isAdmin)
    ensures forall i :: 0 <= i < |items| && (items[i].href != AdminDashboardHref || isAdmin) ==> items[i] in r
    ensures IsSubsequence(r, items)
    ensures forall x :: multiset(r)[x] == if x.href != AdminDashboardHref || isAdmin then multiset(items)[x] else 0
  {
    FilterIsSubsequence(items, ShownTo(isAdmin));
    FilterCounts(items, ShownTo(isAdmin));
    Filter(items, ShownTo(isAdmin))
  }

  /** An admin sees every item, in order. */
  lemma AdminSeesAll(items: seq<NavItem>)
    ensures VisibleItems(items, true) == items
  {
    FilterAll(items, ShownTo(true));
  }

  /** Anyone else sees every item but the dashboard link, in the given order. */
  lemma OthersMissOnlyDashboard(items: seq<NavItem>)
    ensures forall i :: 0 <= i < |VisibleItems(items, false)| ==> VisibleItems(items, false)[i].href != AdminDashboardHref
    ensures forall i :: 0 <= i < |items| && items[i].href != AdminDashboardHref ==> items[i] in VisibleItems(items, false)
    ensures IsSubsequence(VisibleItems(items, false), items)
  {
  }

  /** The filter behind `DefaultItemsForVisitor`, on the application's items. */
  lemma VisitorFilter()
    ensures Filter(NavbarItems, ShownTo(false)) == NavbarItems[..2]
  {
    var p := ShownTo(false);
    var s := NavbarItems;
    assert Filter(s[2..], p) == [] by {
      assert Filter(s[2..][1..], p) == [];
    }
    assert Filter(s[1..], p) == [s[1]] + Filter(s[2..], p);
    assert Filter(s, p) == [s[0]] + Filter(s[1..], p);
  }

  /** With the application's items, someone who is not an admin gets Home and Articles. */
  lemma DefaultItemsForVisitor()
    ensures VisibleItems(NavbarItems, false) == NavbarItems[..2]
  {
    VisitorFilter();
  }
}
