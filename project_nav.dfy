/** The tab bar of a project (src/components/project-nav.tsx): six links under
    the project's path, the one whose href is the current path highlighted. */
module ProjectNav {
  datatype NavItem = NavItem(name: string, href: string)

  function ProjectPath(projectId: string): string {
    "/projects/" + projectId
  }

  /** `navItems`. */
  function NavItems(projectId: string): (items: seq<NavItem>)
    ensures |items| == 6
    ensures forall i :: 0 <= i < 6 ==> items[i].href == ProjectPath(projectId) + Suffixes[i]
  {
    var base := ProjectPath(projectId);
    assert base + "" == base;
    [ NavItem("Resumen", base),
      NavItem("Fases de Obra", base + "/phases"),
      NavItem("Tareas", base + "/tasks"),
      NavItem("Fotos", base + "/photos"),
      NavItem("Archivos", base + "/files"),
      NavItem("Visitas", base + "/visits") ]
  }

  /** What follows the project's path in each href, in tab order. */
  const Suffixes: seq<string> := ["", "/phases", "/tasks", "/photos", "/files", "/visits"]

  /** `isActive` of every tab, in tab order. */
  function ActiveFlags(projectId: string, pathname: string): (flags: seq<bool>)
    ensures |flags| == 6
    ensures forall i :: 0 <= i < 6 ==> (flags[i] <==> pathname == NavItems(projectId)[i].href)
  {
    var items := NavItems(projectId);
    seq(6, i requires 0 <= i < 6 => pathname == items[i].href)
  }

  /** The tabs come in a fixed order with fixed names, and every href is the
      project's path followed by that tab's fixed suffix: nothing for the
      summary, "/" and a section name for the others. */
  lemma NavItemsShape(projectId: string)
    ensures |NavItems(projectId)| == |Suffixes|
    ensures forall i :: 0 <= i < 6 ==> NavItems(projectId)[i].href == ProjectPath(projectId) + Suffixes[i]
    ensures [NavItems(projectId)[0].name, NavItems(projectId)[1].name, NavItems(projectId)[2].name,
             NavItems(projectId)[3].name, NavItems(projectId)[4].name, NavItems(projectId)[5].name]
         == ["Resumen", "Fases de Obra", "Tareas", "Fotos", "Archivos", "Visitas"]
  {
    assert ProjectPath(projectId) + "" == ProjectPath(projectId);
  }

  lemma DifferentAfterPrefix(p: string, a: string, b: string)
    requires a != b
    ensures p + a != p + b
  {
    assert a == (p + a)[|p|..];
    assert b == (p + b)[|p|..];
  }

  /** After the leading '/', no suffix holds another '/'. */
  lemma SuffixesHaveOneSlash()
    ensures forall j, k :: 0 <= j < 6 && 1 <= k < |Suffixes[j]| ==> Suffixes[j][k] != '/'
  {
  }

  /** No two tabs share an href. */
  lemma {:induction false} HrefsDistinct(projectId: string)
    ensures forall i, j :: 0 <= i < j < 6 ==> NavItems(projectId)[i].href != NavItems(projectId)[j].href
  {
    NavItemsShape(projectId);
    forall i, j | 0 <= i < j < 6
      ensures NavItems(projectId)[i].href != NavItems(projectId)[j].href
    {
      DifferentAfterPrefix(ProjectPath(projectId), Suffixes[i], Suffixes[j]);
    }
  }

  /** Whatever the current path, at most one tab is highlighted. */
  lemma AtMostOneActive(projectId: string, pathname: string)
    ensures forall i, j ::
      0 <= i < j < 6 && ActiveFlags(projectId, pathname)[i] ==> !ActiveFlags(projectId, pathname)[j]
  {
    HrefsDistinct(projectId);
  }

  /** A path below a section tab (such as a single task's page) highlights no
      tab: the match is on the whole path. */
  lemma {:induction false} SubPathActivatesNone(projectId: string, i: nat, rest: string)
    requires 1 <= i < 6
    ensures forall j :: 0 <= j < 6 ==> !ActiveFlags(projectId, NavItems(projectId)[i].href + "/" + rest)[j]
  {
    NavItemsShape(projectId);
    SuffixesHaveOneSlash();
    var p := ProjectPath(projectId);
    var tail := Suffixes[i] + "/" + rest;
    assert NavItems(projectId)[i].href + "/" + rest == p + tail;
    forall j | 0 <= j < 6
      ensures NavItems(projectId)[i].href + "/" + rest != NavItems(projectId)[j].href
    {
      assert tail[|Suffixes[i]|] == '/';
      assert tail != Suffixes[j];
      DifferentAfterPrefix(p, tail, Suffixes[j]);
    }
  }

  /** Some tab is highlighted exactly when the path is the project's path or
      the project's path followed by one of the five section suffixes. */
  lemma SomeActiveIff(projectId: string, pathname: string)
    ensures (exists i :: 0 <= i < 6 && ActiveFlags(projectId, pathname)[i])
        <==> pathname in {ProjectPath(projectId), ProjectPath(projectId) + "/phases",
                          ProjectPath(projectId) + "/tasks", ProjectPath(projectId) + "/photos",
                          ProjectPath(projectId) + "/files", ProjectPath(projectId) + "/visits"}
  {
    var flags := ActiveFlags(projectId, pathname);
    NavItemsShape(projectId);
    assert ProjectPath(projectId) + "" == ProjectPath(projectId);
    if pathname == ProjectPath(projectId) {
      assert flags[0];
    } else if pathname == ProjectPath(projectId) + "/phases" {
      assert flags[1];
    } else if pathname == ProjectPath(projectId) + "/tasks" {
      assert flags[2];
    } else if pathname == ProjectPath(projectId) + "/photos" {
      assert flags[3];
    } else if pathname == ProjectPath(projectId) + "/files" {
      assert flags[4];
    } else if pathname == ProjectPath(projectId) + "/visits" {
      assert flags[5];
    }
  }
}
