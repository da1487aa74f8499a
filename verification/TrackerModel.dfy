/**
  The desktop window tracker: the list of native windows the shell shows, which of them
  is active, and who is told about changes.
 */
module TrackerModel {

  /** handle is the compositor's surface; NULL is the null pointer. */
  datatype Entry = Entry(id: nat, appId: string, title: string, isActive: bool, handle: nat)
  datatype Lookup = Missing | Found(entry: Entry)
  datatype Request = Request(id: nat, action: string)

  const NULL: nat := 0

  /**
    hasHandler and hasListener say which callbacks are installed; requests is what the
    handler was given, seen the list a listener that reads it whenever it is called
    read last.
   */
  datatype Tracker = Tracker(windows: seq<Entry>, hasHandler: bool, hasListener: bool,
                             requests: seq<Request>, seen: seq<Entry>)

  const EMPTY := Tracker([], false, false, [], [])

  datatype Call =
    | Register(id: nat, appId: string, title: string, handle: nat)
    | UpdateTitle(id: nat, title: string)
    | SetActive(id: nat, active: bool)
    | Unregister(id: nat)
    | RequestActivate(id: nat)
    | RequestClose(id: nat)
    | SetActionHandler(present: bool)
    | SetChangeListener(present: bool)
    | Clear

  // ---------------------------------------------------------------------------
  // The list
  // ---------------------------------------------------------------------------

  function Deactivated(ws: seq<Entry>): (r: seq<Entry>)
    ensures |r| == |ws| && forall k :: 0 <= k < |ws| ==> r[k] == ws[k].(isActive := false)
  {
    seq(|ws|, k requires 0 <= k < |ws| => ws[k].(isActive := false))
  }

  /** The first position of id, or the length when id is not listed. */
  function Position(ws: seq<Entry>, id: nat): (k: nat)
    ensures k <= |ws| && (k < |ws| ==> ws[k].id == id)
    ensures forall j :: 0 <= j < k ==> ws[j].id != id
  {
    if ws == [] then 0 else if ws[0].id == id then 0 else 1 + Position(ws[1..], id)
  }

  function Listed(id: nat, appId: string, title: string, handle: nat): Entry {
    Entry(id, appId, if title == "" then (if appId == "" then "Application" else appId) else title, true, handle)
  }

  function Registered(ws: seq<Entry>, e: Entry): seq<Entry> {
    var rest := Deactivated(ws);
    var k := Position(rest, e.id);
    if k < |rest| then rest[k := e] else rest + [e]
  }

  function Retitled(ws: seq<Entry>, id: nat, title: string): seq<Entry> {
    var k := Position(ws, id);
    if k < |ws| then ws[k := ws[k].(title := title)] else ws
  }

  function Activated(ws: seq<Entry>, id: nat, active: bool): (r: seq<Entry>)
    ensures |r| == |ws|
    ensures forall k :: 0 <= k < |ws| ==>
              r[k] == ws[k].(isActive := if ws[k].id == id then active else ws[k].isActive && !active)
  {
    seq(|ws|, k requires 0 <= k < |ws| =>
      ws[k].(isActive := if ws[k].id == id then active else ws[k].isActive && !active))
  }

  function Without(ws: seq<Entry>, id: nat): seq<Entry>
    decreases |ws|
  {
    if ws == [] then []
    else
      var last := ws[|ws| - 1];
      Without(ws[..|ws| - 1], id) + if last.id == id then [] else [last]
  }

  predicate SomeActive(ws: seq<Entry>) {
    exists k :: 0 <= k < |ws| && ws[k].isActive
  }

  /** The last window takes over when no window is active. */
  function Refocused(ws: seq<Entry>): seq<Entry> {
    if ws == [] || SomeActive(ws) then ws else ws[|ws| - 1 := ws[|ws| - 1].(isActive := true)]
  }

  function Unregistered(ws: seq<Entry>, id: nat): seq<Entry> {
    var rest := Without(ws, id);
    if |rest| == |ws| then ws else Refocused(rest)
  }

  // ---------------------------------------------------------------------------
  // The calls
  // ---------------------------------------------------------------------------

  function Notified(t: Tracker): Tracker {
    if t.hasListener then t.(seen := t.windows) else t
  }

  function Asked(t: Tracker, id: nat, action: string): Tracker {
    t.(requests := t.requests + [Request(id, action)])
  }

  function Focus(t: Tracker, id: nat, active: bool): Tracker {
    Notified(t.(windows := Activated(t.windows, id, active)))
  }

  function Apply(t: Tracker, c: Call): Tracker {
    match c
    case Register(id, appId, title, handle) =>
      if handle == NULL then t
      else Notified(t.(windows := Registered(t.windows, Listed(id, appId, title, handle))))
    case UpdateTitle(id, title) =>
      if Position(t.windows, id) == |t.windows| then t
      else Notified(t.(windows := Retitled(t.windows, id, title)))
    case SetActive(id, active) => Focus(t, id, active)
    case Unregister(id) =>
      if |Without(t.windows, id)| == |t.windows| then t
      else Notified(t.(windows := Unregistered(t.windows, id)))
    case RequestActivate(id) => if t.hasHandler then Asked(t, id, "activate") else Focus(t, id, true)
    case RequestClose(id) => if t.hasHandler then Asked(t, id, "close") else t
    case SetActionHandler(present) => t.(hasHandler := present)
    case SetChangeListener(present) => t.(hasListener := present)
    case Clear => Notified(t.(windows := [], hasHandler := false))
  }

  function Run(t: Tracker, calls: seq<Call>): Tracker
    decreases |calls|
  {
    if calls == [] then t else Apply(Run(t, calls[..|calls| - 1]), calls[|calls| - 1])
  }
}
