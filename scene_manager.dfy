// The scene manager (SceneManager.py): a list of scenes and the current one.
// Switching exits the old scene before entering the new one; the model records
// those two calls as a trace of notices.
module SceneManager {
  import opened Wrappers

  /** A call into a scene's lifecycle: `sceneEnter` or `sceneExit`. */
  datatype Notice<S> = Enter(scene: S) | Exit(scene: S)

  /** What `switchScene` is given: an int index into the scene list, or a scene itself. */
  datatype SceneArg<S> = Index(i: int) | Scene(scene: S)

  /** Python's IndexError on a list index out of range. */
  datatype IndexError = IndexError

  /** Python list indexing: negative indexes count from the end; out of range has no element. */
  function PyIndex<T>(s: seq<T>, i: int): (r: Option<T>)
    ensures r.Some? <==> -|s| <= i < |s|
    ensures 0 <= i < |s| ==> r == Some(s[i])
  {
    if 0 <= i < |s| then Some(s[i])
    else if -|s| <= i < 0 then Some(s[|s| + i])
    else None
  }

  /** Index -k names the k-th scene from the end, the same one as index |s| - k. */
  lemma CountFromEnd<T>(s: seq<T>, k: int)
    requires 1 <= k <= |s|
    ensures PyIndex(s, -k) == PyIndex(s, |s| - k) == Some(s[|s| - k])
  {
  }

  /** The calls one switch makes: exit the current scene, if any, then enter the new one. */
  function SwitchNotices<S>(current: Option<S>, scene: S): (ns: seq<Notice<S>>)
    ensures 1 <= |ns| <= 2 && ns[|ns| - 1] == Enter(scene)
    ensures current.None? <==> |ns| == 1
  {
    (if current.Some? then [Exit(current.value)] else []) + [Enter(scene)]
  }

  /**
   * Reads a trace of notices from the given current scene: a scene may be
   * entered only when none is current, and only the current scene may be
   * exited. Gives the current scene at the end, or None when the trace breaks
   * that discipline.
   */
  function Replay<S(==)>(current: Option<S>, trace: seq<Notice<S>>): Option<Option<S>>
    decreases |trace|
  {
    if trace == [] then Some(current)
    else match trace[0]
      case Enter(s) => if current.None? then Replay(Some(s), trace[1..]) else None
      case Exit(s) => if current == Some(s) then Replay(None, trace[1..]) else None
  }

  /** A run of switches to the scenes ts, in order: the final current scene and all notices. */
  function Switches<S>(current: Option<S>, ts: seq<S>): (Option<S>, seq<Notice<S>>)
    decreases |ts|
  {
    if ts == [] then (current, [])
    else
      var rest := Switches(Some(ts[0]), ts[1..]);
      (rest.0, SwitchNotices(current, ts[0]) + rest.1)
  }

  class SceneManager<S(==)> {
    var scenes: seq<S>
    /** None until the first scene is added. */
    var current: Option<S>

    constructor ()
      ensures scenes == [] && current == None
    {
      scenes := [];
      current := None;
    }

    /** Appends a scene and returns its index; the first scene added is entered at once. */
    method AddScene(scene: S) returns (index: int, notices: seq<Notice<S>>)
      modifies this
      ensures scenes == old(scenes) + [scene]
      ensures index == |scenes| - 1 && scenes[index] == scene
      ensures old(current).None? ==> current == Some(scene) && notices == [Enter(scene)]
      ensures old(current).Some? ==> current == old(current) && notices == []
    {
      scenes := scenes + [scene];
      notices := [];
      if current == None {
        var _, n := SwitchScene(Scene(scene));
        notices := n;
      }
      index := |scenes| - 1;
    }

    /**
     * Makes the chosen scene current and returns the previous one. An int
     * index out of range fails before anything changes. The old scene is
     * exited before the new one is entered, even when they are the same.
     */
    method SwitchScene(arg: SceneArg<S>) returns (r: Result<Option<S>, IndexError>, notices: seq<Notice<S>>)
      modifies this`current
      ensures r.Failure? <==> arg.Index? && PyIndex(scenes, arg.i).None?
      ensures r.Failure? ==> current == old(current) && notices == []
      ensures r.Success? ==>
                var target := if arg.Index? then PyIndex(scenes, arg.i).value else arg.scene;
                r.value == old(current) && current == Some(target) &&
                notices == SwitchNotices(old(current), target)
    {
      var scene: S;
      if arg.Index? {
        var found := PyIndex(scenes, arg.i);
        if found.None? {
          return Failure(IndexError), [];
        }
        scene := found.value;
      } else {
        scene := arg.scene;
      }
      var oldScene := current;
      notices := [];
      if oldScene != None {
        notices := notices + [Exit(oldScene.value)];
      }
      current := Some(scene);
      notices := notices + [Enter(scene)];
      r := Success(oldScene);
    }

    function GetCurrentScene(): (c: Option<S>)
      reads this`current
      ensures c == current
    {
      current
    }
  }

  /** Replaying a concatenation replays the first part, then the second from where it ended. */
  lemma {:induction false} ReplayAppend<S>(current: Option<S>, a: seq<Notice<S>>, b: seq<Notice<S>>)
    ensures Replay(current, a + b) == if Replay(current, a).None? then None else Replay(Replay(current, a).value, b)
    decreases |a|
  {
    if a != [] {
      assert (a + b)[0] == a[0] && (a + b)[1..] == a[1..] + b;
      match a[0]
      case Enter(s) =>
        if current.None? {
          ReplayAppend(Some(s), a[1..], b);
        }
      case Exit(s) =>
        if current == Some(s) {
          ReplayAppend(None, a[1..], b);
        }
    } else {
      assert a + b == b;
    }
  }

  /**
   * Any run of switches keeps the lifecycle discipline: no scene is entered
   * while another is current, only the current scene is exited, and the trace
   * ends with the run's final scene current.
   */
  lemma {:induction false} SwitchesKeepLifecycle<S>(current: Option<S>, ts: seq<S>)
    ensures Replay(current, Switches(current, ts).1) == Some(Switches(current, ts).0)
    decreases |ts|
  {
    if ts != [] {
      var one := SwitchNotices(current, ts[0]);
      var rest := Switches(Some(ts[0]), ts[1..]);
      SwitchesKeepLifecycle(Some(ts[0]), ts[1..]);
      ReplayAppend(current, one, rest.1);
      if current.Some? {
        assert one == [Exit(current.value), Enter(ts[0])];
        assert one[1..] == [Enter(ts[0])];
        assert Replay(None, one[1..]) == Replay(Some(ts[0]), []);
      } else {
        assert one == [Enter(ts[0])];
      }
    }
  }

  /** After a non-empty run, the last scene switched to is current. */
  lemma {:induction false} SwitchesEndOnLast<S>(current: Option<S>, ts: seq<S>)
    requires ts != []
    ensures Switches(current, ts).0 == Some(ts[|ts| - 1])
    decreases |ts|
  {
    if |ts| > 1 {
      SwitchesEndOnLast(Some(ts[0]), ts[1..]);
    }
  }
}
