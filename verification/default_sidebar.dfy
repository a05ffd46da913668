/** The default sidebar: four navigation links, each highlighted when the
    current route belongs to it. */
module DefaultSidebar {

  datatype NavItem = NavItem(to: string, name: string)

  const NavItems: seq<NavItem> := [
    NavItem("/", "Home"),
    NavItem("/trip-planner", "Trip Planner"),
    NavItem("/me/knowledge-base", "Knowledge Base"),
    NavItem("/watch/example", "Watch")
  ]

  /** The highlight test as the component writes it: the conjunction binds
      tighter than the disjunction, so the root route highlights every link. */
  predicate IsActive(pathname: string, to: string) {
    (to <= pathname && to != "/") || pathname == "/"
  }

  /** The highlight test the component means: the root link only on the root
      route, every other link on the routes under it. */
  predicate IsActiveFixed(pathname: string, to: string) {
    if to == "/" then pathname == "/" else to <= pathname
  }

  /** On the root route every link is highlighted, whatever it points to. */
  lemma RootActivatesEveryItem()
    ensures forall to: string :: IsActive("/", to)
    ensures forall i :: 0 <= i < |NavItems| ==> IsActive("/", NavItems[i].to)
  {
  }

  /** Away from the root route the written test is the intended one: the root
      link is never highlighted and any other link exactly when the route
      starts with its target. */
  lemma IsActiveOffRoot(pathname: string, to: string)
    requires pathname != "/"
    ensures !IsActive(pathname, "/")
    ensures to != "/" ==> (IsActive(pathname, to) <==> to <= pathname)
    ensures IsActive(pathname, to) <==> IsActiveFixed(pathname, to)
  {
  }

  /** The second character of a route under a non-root link names the link. */
  lemma SecondChar(pathname: string, i: int)
    requires 0 < i < |NavItems| && NavItems[i].to <= pathname
    ensures |pathname| > 1 && pathname[1] == NavItems[i].to[1]
  {
  }

  /** With the intended test no route highlights two links, and each link's
      own route highlights it. */
  lemma FixedActivatesOneItem(pathname: string)
    ensures forall i, j :: 0 <= i < j < |NavItems| ==>
      !(IsActiveFixed(pathname, NavItems[i].to) && IsActiveFixed(pathname, NavItems[j].to))
    ensures forall i :: 0 <= i < |NavItems| ==> IsActiveFixed(NavItems[i].to, NavItems[i].to)
  {
    forall i | 0 < i < |NavItems| && IsActiveFixed(pathname, NavItems[i].to)
      ensures |pathname| > 1 && pathname[1] == NavItems[i].to[1]
    {
      SecondChar(pathname, i);
    }
  }

  /** A trip route highlights only the trip planner link, with either test;
      the root route highlights only the home link with the intended one. */
  lemma ActiveItemExamples()
    ensures forall i :: 0 <= i < |NavItems| ==>
      (IsActive("/trip-planner/trip1", NavItems[i].to) <==> NavItems[i].name == "Trip Planner")
    ensures forall i :: 0 <= i < |NavItems| ==>
      (IsActiveFixed("/trip-planner/trip1", NavItems[i].to) <==> NavItems[i].name == "Trip Planner")
    ensures forall i :: 0 <= i < |NavItems| ==>
      (IsActiveFixed("/", NavItems[i].to) <==> NavItems[i].name == "Home")
  {
    var p := "/trip-planner/trip1";
    assert NavItems[1].to <= p;
    forall i | 0 < i < |NavItems| && NavItems[i].to <= p
      ensures i == 1
    {
      SecondChar(p, i);
    }
    forall i | 0 < i < |NavItems| && NavItems[i].to <= "/"
      ensures false
    {
      SecondChar("/", i);
    }
  }
}
