/** One watcher task per watched path: the choice of the directory that is
    actually registered with the file-system watcher, and the filter that
    decides which raw notifications become change signals. */
module Watch {
  import opened Wrappers

  /** A canonical (absolute, symlink-resolved) path, as the sequence of its
      normal components below the root. Rust compares `PathBuf`s component
      by component, so two paths are equal exactly when these sequences are. */
  datatype Path = Path(components: seq<string>)

  /** A watched path after canonicalization. `isDir` is the answer of the
      file system's `is_dir` query, taken as fixed for the life of the watch. */
  datatype WatchTarget = WatchTarget(canonical: Path, isDir: bool)

  /** A raw notification: the paths it touches. */
  datatype Event = Event(paths: seq<Path>)

  /** What the watcher delivers: a notification or a watch error. */
  datatype Notification = Ok(event: Event) | Err

  /** Why no watch root could be chosen (the source panics on `unwrap`). */
  datatype WatchError = NoParent

  /** `a` is `b` or one of its ancestors. */
  predicate IsAncestorOrSelf(a: Path, b: Path)
  {
    |a.components| <= |b.components| && a.components == b.components[..|a.components|]
  }

  /** `Path::parent`: the path without its last component; the root has none. */
  function Parent(p: Path): (r: Option<Path>)
    ensures r.None? <==> |p.components| == 0
    ensures r.Some? ==> r.value.components + [p.components[|p.components| - 1]] == p.components
  {
    if |p.components| == 0 then None
    else Some(Path(p.components[..|p.components| - 1]))
  }

  /** The directory registered with the recursive watcher: the target itself
      when it is a directory, otherwise its parent, because watchers do not
      follow single files reliably. A file target without a parent is the
      source's `unwrap` panic. */
  function WatchRoot(t: WatchTarget): (r: Result<Path, WatchError>)
    ensures t.isDir ==> r == Success(t.canonical)
    ensures !t.isDir ==> (r.Failure? <==> |t.canonical.components| == 0)
    ensures !t.isDir && r.Success? ==> |r.value.components| + 1 == |t.canonical.components|
    ensures r.Success? ==> IsAncestorOrSelf(r.value, t.canonical)
  {
    if t.isDir then Success(t.canonical)
    else match Parent(t.canonical)
      case None => Failure(NoParent)
      case Some(p) => Success(p)
  }

  /** The filter of the watch loop, as a reference definition: a watch error
      is never relevant; for a directory target every notification is; for a
      file target only one that names the target's canonical path exactly. */
  predicate Relevant(t: WatchTarget, n: Notification)
  {
    n.Ok? && (t.isDir || t.canonical in n.event.paths)
  }

  /** `Iterator::find` over the event's paths: the first index whose path
      equals the target, if any. */
  method FindPath(paths: seq<Path>, target: Path) returns (found: Option<nat>)
    ensures found.Some? <==> target in paths
    ensures found.Some? ==> found.value < |paths| && paths[found.value] == target
    ensures found.Some? ==> forall j :: 0 <= j < found.value ==> paths[j] != target
  {
    var i := 0;
    while i < |paths|
      invariant 0 <= i <= |paths|
      invariant forall j :: 0 <= j < i ==> paths[j] != target
    {
      if paths[i] == target {
        return Some(i);
      }
      i := i + 1;
    }
    return None;
  }

  /** Handles one notification of the watch loop: the number of unit change
      signals sent for it (one or none). */
  method HandleNotification(t: WatchTarget, n: Notification) returns (sent: nat)
    ensures sent <= 1
    ensures sent == 1 <==> Relevant(t, n)
    ensures n.Err? ==> sent == 0
    ensures n.Ok? && t.isDir ==> sent == 1
    ensures n.Ok? && !t.isDir ==> (sent == 1 <==> exists i :: 0 <= i < |n.event.paths| && n.event.paths[i] == t.canonical)
  {
    match n
    case Err =>
      sent := 0;
    case Ok(event) =>
      if t.isDir {
        sent := 1;
      } else {
        var found := FindPath(event.paths, t.canonical);
        sent := if found.Some? then 1 else 0;
      }
  }

  /** The number of change signals a sequence of notifications produces,
      counted from the front: one per relevant notification. */
  function CountRelevant(t: WatchTarget, ns: seq<Notification>): nat
  {
    if |ns| == 0 then 0
    else CountRelevant(t, ns[..|ns| - 1]) + (if Relevant(t, ns[|ns| - 1]) then 1 else 0)
  }

  /** The number of successful (non-error) notifications in a sequence. */
  function CountOk(ns: seq<Notification>): nat
  {
    if |ns| == 0 then 0
    else CountOk(ns[..|ns| - 1]) + (if ns[|ns| - 1].Ok? then 1 else 0)
  }

  /** The `while let Some(res) = rx.next()` loop of one watcher over a finite
      prefix of its notification stream: the total number of unit signals it
      sends to the coordinator. */
  method WatchLoop(t: WatchTarget, ns: seq<Notification>) returns (signals: nat)
    ensures signals == CountRelevant(t, ns)
    ensures signals <= |ns|
  {
    signals := 0;
    var i := 0;
    while i < |ns|
      invariant 0 <= i <= |ns|
      invariant signals == CountRelevant(t, ns[..i])
      invariant signals <= i
    {
      var sent := HandleNotification(t, ns[i]);
      assert ns[..i + 1][..i] == ns[..i];
      signals := signals + sent;
      i := i + 1;
    }
    assert ns[..i] == ns;
  }

  /** Signals are additive over consecutive stretches of notifications. */
  lemma {:induction false} CountRelevantAppend(t: WatchTarget, a: seq<Notification>, b: seq<Notification>)
    ensures CountRelevant(t, a + b) == CountRelevant(t, a) + CountRelevant(t, b)
    decreases |b|
  {
    if |b| == 0 {
      assert a + b == a;
    } else {
      var b' := b[..|b| - 1];
      assert (a + b)[..|a + b| - 1] == a + b';
      assert (a + b)[|a + b| - 1] == b[|b| - 1];
      CountRelevantAppend(t, a, b');
    }
  }

  /** For a directory target the watch loop forwards every successful
      notification and nothing else. */
  lemma {:induction false} DirectoryForwardsEveryOk(t: WatchTarget, ns: seq<Notification>)
    requires t.isDir
    ensures CountRelevant(t, ns) == CountOk(ns)
    decreases |ns|
  {
    if |ns| > 0 {
      DirectoryForwardsEveryOk(t, ns[..|ns| - 1]);
    }
  }

  /** Watch errors never produce a signal: removing them changes no count. */
  lemma {:induction false} ErrorsProduceNoSignal(t: WatchTarget, ns: seq<Notification>)
    requires forall i :: 0 <= i < |ns| ==> ns[i].Err?
    ensures CountRelevant(t, ns) == 0
    decreases |ns|
  {
    if |ns| > 0 {
      ErrorsProduceNoSignal(t, ns[..|ns| - 1]);
    }
  }

  /** `p` and `q` are distinct entries of the same directory: same parent,
      different last component. */
  predicate IsSibling(p: Path, q: Path)
  {
    && |p.components| > 0
    && |p.components| == |q.components|
    && p.components[..|p.components| - 1] == q.components[..|q.components| - 1]
    && p.components[|p.components| - 1] != q.components[|q.components| - 1]
  }

  /** A sibling of a file target lies under the watch root registered for
      that target, so the watcher reports its changes, yet it is not the
      target itself. */
  lemma SiblingIsWatchedButNotTarget(t: WatchTarget, p: Path)
    requires !t.isDir
    requires IsSibling(p, t.canonical)
    ensures WatchRoot(t).Success?
    ensures IsAncestorOrSelf(WatchRoot(t).value, p)
    ensures p != t.canonical
  {
    var n := |p.components|;
    assert p.components[n - 1] != t.canonical.components[n - 1];
  }

  /** For a file target, a stream whose notifications only touch siblings of
      the target, in the parent directory the watcher is registered on, sends
      no signal at all (errors included). */
  lemma {:induction false} SiblingsDropped(t: WatchTarget, ns: seq<Notification>)
    requires !t.isDir
    requires forall i, j :: 0 <= i < |ns| && ns[i].Ok? && 0 <= j < |ns[i].event.paths| ==>
      IsSibling(ns[i].event.paths[j], t.canonical)
    ensures CountRelevant(t, ns) == 0
    decreases |ns|
  {
    if |ns| > 0 {
      var last := ns[|ns| - 1];
      SiblingsDropped(t, ns[..|ns| - 1]);
      if last.Ok? {
        forall j | 0 <= j < |last.event.paths|
          ensures last.event.paths[j] != t.canonical
        {
          SiblingIsWatchedButNotTarget(t, last.event.paths[j]);
        }
      }
    }
  }

  /** Every notification the filter lets through for a file target names a
      path under the registered watch root, so the recursive watch covers
      the target. */
  lemma WatchRootCoversTarget(t: WatchTarget, e: Event)
    requires WatchRoot(t).Success?
    requires Relevant(t, Ok(e))
    ensures t.isDir || exists i :: 0 <= i < |e.paths| && IsAncestorOrSelf(WatchRoot(t).value, e.paths[i])
  {
    if !t.isDir {
      var i :| 0 <= i < |e.paths| && e.paths[i] == t.canonical;
      assert IsAncestorOrSelf(WatchRoot(t).value, e.paths[i]);
    }
  }
}
