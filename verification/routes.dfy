/** The `<Routes>` table of the application shell: which page a pathname renders,
    given whether a user is signed in. Protected routes are only declared while a user
    is present; the splat route catches everything else. Matching follows React
    Router: literal segments compare case-insensitively, trailing slashes are ignored,
    and `:id` takes one non-empty segment. */
module Routes {
  import opened Wrappers
  import opened Text

  datatype Page =
    | LoginView
    | TaskList
    | MyTasks
    | CreateTask
    | UpdateTask(id: string)
    | ViewTask(id: string)
    | AccessDenied

  /** The pages only a signed-in user may see. */
  predicate Protected(p: Page) {
    !(p.LoginView? || p.AccessDenied?)
  }

  /** A browser pathname always starts with '/'. */
  predicate IsPathname(path: string) {
    |path| > 0 && path[0] == '/'
  }

  /** ASCII lower case, the folding a case-insensitive route pattern applies. */
  function Lower(c: char): char {
    if 'A' <= c <= 'Z' then ((c as int) + 32) as char else c
  }

  predicate AllSlashes(s: string) {
    forall i :: 0 <= i < |s| ==> s[i] == '/'
  }

  /** `path` starts with the lower-case literal `lit`, ignoring letter case. */
  predicate LiteralPrefix(path: string, lit: string) {
    |lit| <= |path| && forall i :: 0 <= i < |lit| ==> Lower(path[i]) == lit[i]
  }

  /** A static route `lit`: the literal, then nothing but trailing slashes. */
  predicate StaticMatch(path: string, lit: string) {
    LiteralPrefix(path, lit) && AllSlashes(path[|lit|..])
  }

  /** The index route: the root path, possibly with extra slashes. */
  predicate IndexMatch(path: string) {
    IsPathname(path) && AllSlashes(path)
  }

  /** A dynamic route `lit/:id`: the literal, '/', a non-empty segment without '/',
      then trailing slashes. Gives the segment. */
  function ParamMatch(path: string, lit: string): (r: Option<string>)
    ensures r.Some? ==> r.value != "" && '/' !in r.value
  {
    if LiteralPrefix(path, lit + "/") then
      var rest := path[|lit| + 1..];
      var id := SplitHead(rest, '/');
      if id != "" && AllSlashes(rest[|id|..]) then Some(id) else None
    else None
  }

  /** The rendered page: the routes in declaration order, the protected ones present
      only when `signedIn`, and the splat route as the fallback. */
  function Resolve(path: string, signedIn: bool): Page
    requires IsPathname(path)
  {
    if IndexMatch(path) || StaticMatch(path, "/login") then LoginView
    else if signedIn && StaticMatch(path, "/tasks") then TaskList
    else if signedIn && StaticMatch(path, "/assignee-me") then MyTasks
    else if signedIn && StaticMatch(path, "/create-task") then CreateTask
    else if signedIn && ParamMatch(path, "/update-task").Some? then
      UpdateTask(ParamMatch(path, "/update-task").value)
    else if signedIn && ParamMatch(path, "/view-task").Some? then
      ViewTask(ParamMatch(path, "/view-task").value)
    else AccessDenied
  }

  /** The route patterns of the table, the splat route aside. */
  datatype Route = IndexRoute | LoginRoute | TasksRoute | AssigneeMeRoute | CreateTaskRoute
                 | UpdateTaskRoute | ViewTaskRoute

  predicate RouteMatches(r: Route, path: string) {
    match r
    case IndexRoute => IndexMatch(path)
    case LoginRoute => StaticMatch(path, "/login")
    case TasksRoute => StaticMatch(path, "/tasks")
    case AssigneeMeRoute => StaticMatch(path, "/assignee-me")
    case CreateTaskRoute => StaticMatch(path, "/create-task")
    case UpdateTaskRoute => ParamMatch(path, "/update-task").Some?
    case ViewTaskRoute => ParamMatch(path, "/view-task").Some?
  }

  /** The page a matched route renders for a signed-in user. */
  function Target(r: Route, path: string): Page
    requires RouteMatches(r, path)
  {
    match r
    case IndexRoute => LoginView
    case LoginRoute => LoginView
    case TasksRoute => TaskList
    case AssigneeMeRoute => MyTasks
    case CreateTaskRoute => CreateTask
    case UpdateTaskRoute => UpdateTask(ParamMatch(path, "/update-task").value)
    case ViewTaskRoute => ViewTask(ParamMatch(path, "/view-task").value)
  }

  predicate PublicRoute(r: Route) {
    r == IndexRoute || r == LoginRoute
  }

  /** The character after the leading '/', folded to lower case ('/' for the root). */
  function FirstLetter(path: string): char {
    if |path| > 1 then Lower(path[1]) else '/'
  }

  /** The first letter every path matching `r` has. */
  function RouteLetter(r: Route): char {
    match r
    case IndexRoute => '/'
    case LoginRoute => 'l'
    case TasksRoute => 't'
    case AssigneeMeRoute => 'a'
    case CreateTaskRoute => 'c'
    case UpdateTaskRoute => 'u'
    case ViewTaskRoute => 'v'
  }

  lemma RouteLetterOfMatch(r: Route, path: string)
    requires RouteMatches(r, path)
    ensures FirstLetter(path) == RouteLetter(r)
  {
    match r
    case IndexRoute =>
      if |path| > 1 {
        assert path[1] == '/';
      }
    case LoginRoute =>
      assert Lower(path[1]) == "/login"[1];
    case TasksRoute =>
      assert Lower(path[1]) == "/tasks"[1];
    case AssigneeMeRoute =>
      assert Lower(path[1]) == "/assignee-me"[1];
    case CreateTaskRoute =>
      assert Lower(path[1]) == "/create-task"[1];
    case UpdateTaskRoute =>
      assert LiteralPrefix(path, "/update-task" + "/");
      assert Lower(path[1]) == ("/update-task" + "/")[1];
    case ViewTaskRoute =>
      assert LiteralPrefix(path, "/view-task" + "/");
      assert Lower(path[1]) == ("/view-task" + "/")[1];
  }

  /** No pathname matches two patterns (they differ in the first character after the
      leading '/'), so the order of the table and the router's ranking never matter. */
  lemma RoutesDisjoint(r1: Route, r2: Route, path: string)
    requires RouteMatches(r1, path) && RouteMatches(r2, path)
    ensures r1 == r2
  {
    RouteLetterOfMatch(r1, path);
    RouteLetterOfMatch(r2, path);
  }

  /** The table as a whole: a path matching route `r` renders `r`'s page when `r` is
      public or a user is signed in, and the access-denied page otherwise. */
  lemma ResolveByTable(path: string, signedIn: bool, r: Route)
    requires IsPathname(path)
    ensures RouteMatches(r, path) ==>
              Resolve(path, signedIn)
              == (if PublicRoute(r) || signedIn then Target(r, path) else AccessDenied)
  {
    if RouteMatches(r, path) {
      forall r2 | RouteMatches(r2, path) ensures r2 == r {
        RoutesDisjoint(r, r2, path);
      }
      assert RouteMatches(IndexRoute, path) ==> r == IndexRoute;
      assert RouteMatches(LoginRoute, path) ==> r == LoginRoute;
      assert RouteMatches(TasksRoute, path) ==> r == TasksRoute;
      assert RouteMatches(AssigneeMeRoute, path) ==> r == AssigneeMeRoute;
      assert RouteMatches(CreateTaskRoute, path) ==> r == CreateTaskRoute;
      assert RouteMatches(UpdateTaskRoute, path) ==> r == UpdateTaskRoute;
    }
  }

  /** A path that matches no route of the table renders access denied in both states. */
  lemma UnmatchedPathDenied(path: string, signedIn: bool)
    requires IsPathname(path)
    requires forall r :: !RouteMatches(r, path)
    ensures Resolve(path, signedIn) == AccessDenied
  {
    assert !RouteMatches(IndexRoute, path) && !RouteMatches(LoginRoute, path);
    assert !RouteMatches(TasksRoute, path) && !RouteMatches(AssigneeMeRoute, path);
    assert !RouteMatches(CreateTaskRoute, path) && !RouteMatches(UpdateTaskRoute, path);
    assert !RouteMatches(ViewTaskRoute, path);
  }

  /** Signed out, no pathname reaches a protected page. */
  lemma SignedOutSeesNoProtectedPage(path: string)
    requires IsPathname(path)
    ensures !Protected(Resolve(path, false))
    ensures Resolve(path, false) == LoginView || Resolve(path, false) == AccessDenied
  {
  }

  /** Signing in only changes what a pathname shows if it showed access denied. */
  lemma SigningInOnlyUnlocks(path: string)
    requires IsPathname(path)
    ensures Resolve(path, false) != Resolve(path, true) ==>
              Resolve(path, false) == AccessDenied && Protected(Resolve(path, true))
  {
  }

  /** The index route and `/login` render the login page in both states. */
  lemma LoginAlwaysReachable(signedIn: bool)
    ensures Resolve("/", signedIn) == LoginView
    ensures Resolve("/login", signedIn) == LoginView
  {
    assert StaticMatch("/login", "/login");
  }

  /** A lower-case literal followed by trailing slashes matches the literal. */
  lemma StaticMatchExact(lit: string)
    requires forall i :: 0 <= i < |lit| ==> Lower(lit[i]) == lit[i]
    ensures StaticMatch(lit, lit)
  {
  }

  /** The literal pages, each with and without a user. */
  lemma StaticPages(signedIn: bool)
    ensures Resolve("/tasks", signedIn) == if signedIn then TaskList else AccessDenied
    ensures Resolve("/assignee-me", signedIn) == if signedIn then MyTasks else AccessDenied
    ensures Resolve("/create-task", signedIn) == if signedIn then CreateTask else AccessDenied
  {
    StaticMatchExact("/tasks");
    StaticMatchExact("/assignee-me");
    StaticMatchExact("/create-task");
    ResolveByTable("/tasks", signedIn, TasksRoute);
    ResolveByTable("/assignee-me", signedIn, AssigneeMeRoute);
    ResolveByTable("/create-task", signedIn, CreateTaskRoute);
  }

  /** `lit/<id>` matches the dynamic route `lit/:id` with parameter `id`. */
  lemma ParamMatchJoin(lit: string, id: string)
    requires forall i :: 0 <= i < |lit| ==> Lower(lit[i]) == lit[i]
    requires id != "" && '/' !in id
    ensures ParamMatch(lit + "/" + id, lit) == Some(id)
  {
    var path := lit + "/" + id;
    assert path[..|lit| + 1] == lit + "/";
    assert LiteralPrefix(path, lit + "/");
    assert path[|lit| + 1..] == id;
    SplitHeadNoSep(id, '/');
  }

  /** `/update-task/<id>` and `/view-task/<id>`, for any one-segment id, render their
      page with that id when signed in and access denied otherwise. */
  lemma ParamPages(id: string, signedIn: bool)
    requires id != "" && '/' !in id
    ensures Resolve("/update-task/" + id, signedIn)
            == if signedIn then UpdateTask(id) else AccessDenied
    ensures Resolve("/view-task/" + id, signedIn)
            == if signedIn then ViewTask(id) else AccessDenied
  {
    ParamMatchJoin("/update-task", id);
    ParamMatchJoin("/view-task", id);
    assert "/update-task/" + id == "/update-task" + "/" + id;
    assert "/view-task/" + id == "/view-task" + "/" + id;
    ResolveByTable("/update-task/" + id, signedIn, UpdateTaskRoute);
    ResolveByTable("/view-task/" + id, signedIn, ViewTaskRoute);
  }

  /** A pathname outside the table renders access denied whether or not a user is
      signed in; `/settings` is one such path. */
  lemma UnknownPathDenied(signedIn: bool)
    ensures Resolve("/settings", signedIn) == AccessDenied
  {
    forall r ensures !RouteMatches(r, "/settings") {
      if RouteMatches(r, "/settings") {
        RouteLetterOfMatch(r, "/settings");
      }
    }
    UnmatchedPathDenied("/settings", signedIn);
  }
}
