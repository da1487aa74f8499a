/**
  The tracker object: the list updated in place by its loops, each method proved to
  compute the call of TrackerModel it stands for.
 */
module DesktopWindowTracker {
  import opened TrackerModel

  class DesktopWindowTracker {
    var windows: seq<Entry>
    var actionHandler: bool
    var changeListener: bool
    ghost var requests: seq<Request>   // what the installed handler was given
    ghost var seen: seq<Entry>         // the list at the listener's last call

    ghost function Model(): (t: Tracker)
      reads this
    {
      Tracker(windows, actionHandler, changeListener, requests, seen)
    }

    constructor ()
      ensures Model() == EMPTY
    {
      windows, actionHandler, changeListener := [], false, false;
      requests, seen := [], [];
    }

    /** find_if over the ids. */
    method Find(id: nat) returns (k: nat)
      ensures k == Position(windows, id)
    {
      k := 0;
      while k < |windows|
        invariant k <= |windows|
        invariant Position(windows, id) == k + Position(windows[k..], id)
      {
        if windows[k].id == id {
          return;
        }
        assert windows[k..][1..] == windows[k + 1..];
        k := k + 1;
      }
    }

    /** Calls the listener copied under the lock, when there is one. */
    method Notify()
      modifies this`seen
      ensures Model() == Notified(old(Model()))
    {
      if changeListener {
        seen := windows;
      }
    }

    method RegisterWindow(id: nat, appId: string, title: string, handle: nat) returns (ok: bool)
      modifies this
      ensures ok <==> handle != NULL
      ensures Model() == Apply(old(Model()), Register(id, appId, title, handle))
    {
      if handle == NULL {
        return false;
      }
      var i := 0;
      while i < |windows|
        invariant i <= |windows| == |old(windows)|
        invariant forall j :: 0 <= j < i ==> windows[j] == old(windows)[j].(isActive := false)
        invariant forall j :: i <= j < |windows| ==> windows[j] == old(windows)[j]
        invariant Model() == old(Model()).(windows := windows)
      {
        windows := windows[i := windows[i].(isActive := false)];
        i := i + 1;
      }
      assert windows == Deactivated(old(windows));
      var entry := Entry(id, appId, if title == "" then (if appId == "" then "Application" else appId) else title,
                         true, handle);
      var k := Find(id);
      if k < |windows| {
        windows := windows[k := entry];
      } else {
        windows := windows + [entry];
      }
      Notify();
      return true;
    }

    method UpdateWindowTitle(id: nat, title: string)
      modifies this
      ensures Model() == Apply(old(Model()), UpdateTitle(id, title))
    {
      var k := Find(id);
      if k < |windows| {
        windows := windows[k := windows[k].(title := title)];
        Notify();
      }
    }

    method SetWindowActive(id: nat, active: bool)
      modifies this
      ensures Model() == Apply(old(Model()), SetActive(id, active))
    {
      var i := 0;
      while i < |windows|
        invariant i <= |windows| == |old(windows)|
        invariant forall j :: 0 <= j < i ==> windows[j] == Activated(old(windows), id, active)[j]
        invariant forall j :: i <= j < |windows| ==> windows[j] == old(windows)[j]
        invariant Model() == old(Model()).(windows := windows)
      {
        if windows[i].id == id {
          windows := windows[i := windows[i].(isActive := active)];
        } else if active {
          windows := windows[i := windows[i].(isActive := false)];
        }
        i := i + 1;
      }
      assert windows == Activated(old(windows), id, active);
      Notify();
    }

    method UnregisterWindow(id: nat)
      modifies this
      ensures Model() == Apply(old(Model()), Unregister(id))
    {
      var kept := RemoveIf(id);
      if |kept| < |windows| {
        windows := kept;
        if windows != [] {
          var hasActive := false;
          var i := 0;
          while i < |windows| && !hasActive
            invariant i <= |windows| && windows == kept
            invariant !hasActive ==> !SomeActive(windows[..i])
            invariant hasActive ==> SomeActive(windows)
            invariant Model() == old(Model()).(windows := kept)
          {
            if windows[i].isActive {
              hasActive := true;
            }
            i := i + 1;
          }
          if !hasActive {
            assert windows[..i] == windows;
            windows := windows[|windows| - 1 := windows[|windows| - 1].(isActive := true)];
          }
        }
        Notify();
      }
    }

    /** remove_if over the ids. */
    method RemoveIf(id: nat) returns (kept: seq<Entry>)
      ensures kept == Without(windows, id) && |kept| <= |windows|
    {
      kept := [];
      var i := 0;
      while i < |windows|
        invariant i <= |windows|
        invariant kept == Without(windows[..i], id) && |kept| <= i
      {
        assert windows[..i + 1][..i] == windows[..i];
        if windows[i].id != id {
          kept := kept + [windows[i]];
        }
        i := i + 1;
      }
      assert windows[..i] == windows;
    }

    method GetWindow(id: nat) returns (r: Lookup)
      ensures r == Missing <==> forall k :: 0 <= k < |windows| ==> windows[k].id != id
      ensures r.Found? ==> r.entry.id == id && r.entry in windows
    {
      var k := Find(id);
      if k < |windows| {
        return Found(windows[k]);
      }
      return Missing;
    }

    method InstallActionHandler(present: bool)
      modifies this
      ensures Model() == Apply(old(Model()), SetActionHandler(present))
      ensures actionHandler == present && windows == old(windows) && changeListener == old(changeListener)
    {
      actionHandler := present;
    }

    method InstallChangeListener(present: bool)
      modifies this
      ensures Model() == Apply(old(Model()), SetChangeListener(present))
      ensures changeListener == present && windows == old(windows) && actionHandler == old(actionHandler)
    {
      changeListener := present;
    }

    method AskToActivate(id: nat)
      modifies this
      ensures Model() == Apply(old(Model()), RequestActivate(id))
    {
      if actionHandler {
        requests := requests + [Request(id, "activate")];
      } else {
        SetWindowActive(id, true);
      }
    }

    method AskToClose(id: nat)
      modifies this
      ensures Model() == Apply(old(Model()), RequestClose(id))
    {
      if actionHandler {
        requests := requests + [Request(id, "close")];
      }
    }

    method ClearWindows()
      modifies this
      ensures Model() == Apply(old(Model()), Clear)
      ensures windows == [] && !actionHandler && changeListener == old(changeListener)
    {
      windows, actionHandler := [], false;
      Notify();
    }
  }
}
