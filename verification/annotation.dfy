/**
 * The face annotation session: the sorted list of image paths under the
 * library, the annotation dictionary (per-image point lists plus the
 * `__banned` set, persisted to the save file), the cursor `iter`, the point
 * being dragged, and the navigation, mouse and keyboard handlers that update
 * them.
 */
module Annotation {
  import opened Wrappers
  import opened Text

  /** Only paths containing this substring are ever shown. */
  const Filter: string := "Fiship"
  /** The dictionary key under which the set of banned paths is kept. */
  const BannedKey: string := "__banned"

  // Key codes of the toolkit (GLFW's).
  const KeyBackspace: int := 259
  const KeyDelete: int := 261
  const KeyRight: int := 262
  const KeyLeft: int := 263
  const KeyDown: int := 264
  const KeyUp: int := 265

  /** A clicked position in image coordinates. */
  datatype Point = Point(x: real, y: real)

  /** A value of the annotation dictionary: a list of points, or the banned set. */
  datatype Entry = Points(pts: seq<Point>) | Banned(members: set<string>)

  /** The value `key` the keyboard handler receives, which it compares with ints and with 'B'. */
  datatype PyKey = IntKey(code: int) | StrKey(text: string)

  /** `len(x)` of a dictionary value. */
  function Size(e: Entry): nat {
    match e
    case Points(pts) => |pts|
    case Banned(members) => |members|
  }

  /** A dictionary as this program writes it: the banned set under its key, point lists elsewhere. */
  predicate WellFormed(m: map<string, Entry>) {
    forall k :: k in m ==> (m[k].Banned? <==> k == BannedKey)
  }

  /** `annotation['__banned']`, or no paths when that key is absent. */
  function BannedSet(m: map<string, Entry>): set<string> {
    if BannedKey in m && m[BannedKey].Banned? then m[BannedKey].members else {}
  }

  // ---------------------------------------------------------------------------
  // Collecting the image paths

  /** One step of `os.walk`: a directory, relative to the library root ("" for the root), and its files. */
  datatype WalkEntry = WalkEntry(relDir: string, files: seq<string>)

  predicate IsImageName(name: string) {
    EndsWith(name, ".jpg") || EndsWith(name, ".jpeg") || EndsWith(name, ".png")
  }

  /** `os.path.relpath(os.path.join(dirName, x), library)`. */
  function RelPath(relDir: string, name: string): string {
    if relDir == "" then name else relDir + "/" + name
  }

  /** The list comprehension over one directory's files. */
  function Select(relDir: string, files: seq<string>): seq<string> {
    if files == [] then []
    else
      var last := |files| - 1;
      Select(relDir, files[..last]) + (if IsImageName(files[last]) then [RelPath(relDir, files[last])] else [])
  }

  /** The paths `+=` collects over the whole walk, in walk order. */
  function ImagePaths(walk: seq<WalkEntry>): seq<string> {
    if walk == [] then []
    else
      var last := |walk| - 1;
      ImagePaths(walk[..last]) + Select(walk[last].relDir, walk[last].files)
  }

  /** The collection loop of the constructor. */
  method CollectPaths(walk: seq<WalkEntry>) returns (paths: seq<string>)
    ensures paths == ImagePaths(walk)
  {
    paths := [];
    var i := 0;
    while i < |walk|
      invariant 0 <= i <= |walk|
      invariant paths == ImagePaths(walk[..i])
    {
      assert walk[..i + 1][..i] == walk[..i];
      paths := paths + Select(walk[i].relDir, walk[i].files);
      i := i + 1;
    }
    assert walk[..i] == walk;
  }

  lemma RelPathKeepsSuffix(relDir: string, name: string, suffix: string)
    requires EndsWith(name, suffix)
    ensures EndsWith(RelPath(relDir, name), suffix)
  {
    if relDir != "" {
      EndsWithAppend(relDir + "/", suffix, name);
      assert relDir + "/" + name == (relDir + "/") + name;
    }
  }

  /** A directory contributes exactly the relative paths of its image files. */
  lemma {:induction false} SelectExactly(relDir: string, files: seq<string>)
    ensures forall p :: p in Select(relDir, files) <==>
      exists x :: x in files && IsImageName(x) && p == RelPath(relDir, x)
  {
    if files != [] {
      var last := |files| - 1;
      SelectExactly(relDir, files[..last]);
      assert files == files[..last] + [files[last]];
    }
  }

  /** Path `p` comes from the directory at position `i` of the walk. */
  predicate FromEntry(walk: seq<WalkEntry>, i: int, p: string) {
    0 <= i < |walk| && p in Select(walk[i].relDir, walk[i].files)
  }

  /** The walk contributes exactly what its directories contribute. */
  lemma {:induction false} ImagePathsExactly(walk: seq<WalkEntry>)
    ensures forall p :: p in ImagePaths(walk) <==> exists i :: FromEntry(walk, i, p)
  {
    if walk != [] {
      var last := |walk| - 1;
      var front := walk[..last];
      ImagePathsExactly(front);
      assert ImagePaths(walk) == ImagePaths(front) + Select(walk[last].relDir, walk[last].files);
      forall p | p in ImagePaths(walk)
        ensures exists i :: FromEntry(walk, i, p)
      {
        if p in ImagePaths(front) {
          var i :| FromEntry(front, i, p);
          assert FromEntry(walk, i, p);
        } else {
          assert FromEntry(walk, last, p);
        }
      }
      forall p, i | FromEntry(walk, i, p)
        ensures p in ImagePaths(walk)
      {
        if i < last {
          assert FromEntry(front, i, p);
        }
      }
    }
  }

  /** Every collected path keeps its file's image extension, so none is the banned key. */
  lemma {:induction false} ImagePathsAreImages(walk: seq<WalkEntry>)
    ensures forall p :: p in ImagePaths(walk) ==> IsImageName(p) && p != BannedKey
  {
    ImagePathsExactly(walk);
    forall p | p in ImagePaths(walk)
      ensures IsImageName(p) && p != BannedKey
    {
      var i :| FromEntry(walk, i, p);
      SelectExactly(walk[i].relDir, walk[i].files);
      var x :| x in walk[i].files && IsImageName(x) && p == RelPath(walk[i].relDir, x);
      if EndsWith(x, ".jpg") {
        RelPathKeepsSuffix(walk[i].relDir, x, ".jpg");
      } else if EndsWith(x, ".jpeg") {
        RelPathKeepsSuffix(walk[i].relDir, x, ".jpeg");
      } else {
        RelPathKeepsSuffix(walk[i].relDir, x, ".png");
      }
      ImageNameNotBannedKey(p);
    }
  }

  /** Sorting keeps the paths what they were: image names, none of them the banned key. */
  lemma SortedPathsAreImages(walk: seq<WalkEntry>)
    ensures var ps := SortStrings(ImagePaths(walk));
      forall i :: 0 <= i < |ps| ==> IsImageName(ps[i]) && ps[i] != BannedKey
  {
    var found := ImagePaths(walk);
    var ps := SortStrings(found);
    SortPermutes(found);
    ImagePathsAreImages(walk);
    forall i | 0 <= i < |ps|
      ensures IsImageName(ps[i]) && ps[i] != BannedKey
    {
      assert ps[i] in multiset(ps);
      assert ps[i] in found;
    }
  }

  /** "__banned" has none of the image extensions. */
  lemma ImageNameNotBannedKey(p: string)
    requires IsImageName(p)
    ensures p != BannedKey
  {
  }

  // ---------------------------------------------------------------------------
  // The dictionary the constructor starts from

  /** The dictionary loaded from the save file, or empty when there is none. */
  function Loaded(saved: Option<map<string, Entry>>): map<string, Entry> {
    if saved.Some? then saved.value else map[]
  }

  /** Adds an empty banned set when the dictionary has none. */
  function WithBanned(m: map<string, Entry>): map<string, Entry> {
    if BannedKey in m then m else m[BannedKey := Banned({})]
  }

  /** The keys `to_delete` collects: every key other than the banned one whose value is empty. */
  function EmptyKeys(m: map<string, Entry>): set<string> {
    set k | k in m && Size(m[k]) == 0 && k != BannedKey
  }

  /** The loop over the dictionary's items that fills `to_delete`. */
  method EmptyKeysOf(m: map<string, Entry>) returns (toDelete: set<string>)
    ensures toDelete == EmptyKeys(m)
  {
    toDelete := {};
    var pending := m.Keys;
    while pending != {}
      invariant pending <= m.Keys
      invariant toDelete == set k | k in m && k !in pending && Size(m[k]) == 0 && k != BannedKey
      decreases pending
    {
      var p :| p in pending;
      if Size(m[p]) == 0 && p != BannedKey {
        toDelete := toDelete + {p};
      }
      pending := pending - {p};
    }
  }

  function Pruned(m: map<string, Entry>): map<string, Entry> {
    m - EmptyKeys(m)
  }

  /** Takes every path of `paths` that has points out of the banned set. */
  function Unbanned(m: map<string, Entry>, paths: seq<string>): map<string, Entry> {
    if BannedKey in m then
      m[BannedKey := Banned(BannedSet(m) - set p | p in paths && p in m)]
    else m
  }

  /** The dictionary after the constructor's clean-up. */
  function InitialAnnotation(saved: Option<map<string, Entry>>, paths: seq<string>): map<string, Entry> {
    Unbanned(Pruned(WithBanned(Loaded(saved))), paths)
  }

  /**
   * After the clean-up the banned set is present, no other key holds an empty
   * value, and no listed path is both annotated and banned; every other
   * saved entry survives unchanged.
   */
  lemma InitialAnnotationShape(saved: Option<map<string, Entry>>, paths: seq<string>)
    requires saved.Some? ==> WellFormed(saved.value)
    ensures var m := InitialAnnotation(saved, paths);
      && WellFormed(m)
      && BannedKey in m
      && (forall k :: k in m && k != BannedKey ==> Size(m[k]) > 0)
      && (forall p :: p in paths && p in m && p != BannedKey ==> p !in BannedSet(m))
      && (forall k :: k != BannedKey ==>
            (k in m <==> k in Loaded(saved) && Size(Loaded(saved)[k]) > 0))
      && (forall k :: k in m && k != BannedKey ==> m[k] == Loaded(saved)[k])
      && BannedSet(m) <= BannedSet(Loaded(saved))
  {
  }

  /** Some path passes the filter and is not banned: what lets the navigation loops end. */
  predicate SomeEligible(paths: seq<string>, m: map<string, Entry>) {
    exists i :: 0 <= i < |paths| && Contains(paths[i], Filter) && paths[i] !in BannedSet(m)
  }

  // ---------------------------------------------------------------------------
  // Cyclic distances for the navigation loops

  /** Steps forward from `a` (or from before the first path, a = -1) to `j` on a ring of `n`; 1..n. */
  function Forward(a: int, j: int, n: int): int
    requires -1 <= a < n && 0 <= j < n
  {
    if j > a then j - a else j - a + n
  }

  /** Steps backward from `a` to `j` on a ring of `n`; 1..n. */
  function Backward(a: int, j: int, n: int): int
    requires 0 <= a < n && 0 <= j < n
  {
    if j < a then a - j else a - j + n
  }

  /** One step forward adds one to the distance from `a`, until the ring is closed. */
  lemma ForwardStep(a: int, i: int, n: int)
    requires -1 <= a < n && 0 <= i < n && Forward(a, i, n) < n
    ensures Forward(a, if i + 1 == n then 0 else i + 1, n) == Forward(a, i, n) + 1
  {
  }

  /** One step backward adds one to the distance from `a`, until the ring is closed. */
  lemma BackwardStep(a: int, i: int, n: int)
    requires 0 <= a < n && 0 <= i < n && Backward(a, i, n) < n
    ensures Backward(a, if i == 0 then n - 1 else i - 1, n) == Backward(a, i, n) + 1
  {
  }

  /** On [0, 2n) the remainder by `n` subtracts `n` at most once. */
  lemma ModBelowTwice(x: int, n: int)
    requires 0 < n && 0 <= x < 2 * n
    ensures x % n == if x < n then x else x - n
  {
    var q, r := x / n, x % n;
    assert x == q * n + r && 0 <= r < n;
  }

  /** `(i + 1) % n` moves one step forward, wrapping to 0. */
  lemma NextIndex(i: int, n: int)
    requires -1 <= i < n && 0 < n
    ensures (i + 1) % n == if i + 1 == n then 0 else i + 1
  {
    ModBelowTwice(i + 1, n);
  }

  /** `(i - 1 + n) % n` moves one step backward, wrapping to n - 1. */
  lemma PrevIndex(i: int, n: int)
    requires 0 <= i < n
    ensures (i - 1 + n) % n == if i == 0 then n - 1 else i - 1
  {
    ModBelowTwice(i - 1 + n, n);
  }

  // ---------------------------------------------------------------------------
  // The session

  class App {
    /** The sorted image paths. */
    const paths: seq<string>
    /** The annotation dictionary. */
    var annotation: map<string, Entry>
    /** Index of the current path; -1 only before the first load. */
    var iter: int
    /** Index of the point being dragged, if any. */
    var moving: Option<nat>
    /** The path whose image was last handed to set_image. */
    var shown: string
    /** The contents of the save file. */
    var stored: Option<map<string, Entry>>

    /** What holds from construction on, wherever the cursor is. */
    ghost predicate Ready()
      reads this
    {
      && |paths| > 0
      && (forall i :: 0 <= i < |paths| ==> paths[i] != BannedKey)
      && WellFormed(annotation)
      && BannedKey in annotation
    }

    ghost predicate Valid()
      reads this
    {
      Ready() && 0 <= iter < |paths|
    }

    /** `load_next` and `load_prev` stop here: the path passes the filter and is not banned. */
    predicate Eligible(i: int)
      reads this`annotation
      requires 0 <= i < |paths|
    {
      Contains(paths[i], Filter) && paths[i] !in BannedSet(annotation)
    }

    /** The `_not_annotated` loops stop here: an eligible path that is unannotated, or index 0. */
    predicate NotAnnotatedStop(i: int)
      reads this`annotation
      requires 0 <= i < |paths|
    {
      Eligible(i) && (paths[i] !in annotation || i == 0)
    }

    /**
     * Lists the images under the library, loads the save file, cleans the
     * dictionary up and loads the first eligible image. The walk and the
     * saved dictionary stand for `os.walk` and the unpickled file.
     */
    constructor (walk: seq<WalkEntry>, saved: Option<map<string, Entry>>)
      requires saved.Some? ==> WellFormed(saved.value)
      requires var ps := SortStrings(ImagePaths(walk)); SomeEligible(ps, InitialAnnotation(saved, ps))
      ensures Valid()
      ensures paths == SortStrings(ImagePaths(walk))
      ensures annotation == InitialAnnotation(saved, paths)
      ensures moving == None && stored == saved
      ensures Eligible(iter) && forall j :: 0 <= j < iter ==> !Eligible(j)
      ensures shown == paths[iter]
    {
      var found := CollectPaths(walk);
      paths := SortStrings(found);
      iter := -1;
      annotation := if saved.Some? then saved.value else map[];
      stored := saved;
      moving := None;
      shown := "";
      new;
      assert forall i :: 0 <= i < |paths| ==> paths[i] != BannedKey by {
        SortedPathsAreImages(walk);
      }

      CleanUp();
      assert WellFormed(annotation) && BannedKey in annotation by {
        InitialAnnotationShape(saved, paths);
      }
      moving := None;
      assert Ready();
      assert exists j :: 0 <= j < |paths| && Eligible(j) by {
        var w :| 0 <= w < |paths| && Contains(paths[w], Filter) && paths[w] !in BannedSet(annotation);
        assert Eligible(w);
      }
      LoadNext();
      assert forall j :: 0 <= j < iter ==> !Eligible(j) by {
        assert forall j :: 0 <= j < iter ==> Forward(-1, j, |paths|) < Forward(-1, iter, |paths|);
      }
    }

    /**
     * The constructor's clean-up of the loaded dictionary: adds the banned
     * set if missing, deletes empty entries, unbans annotated paths.
     */
    method CleanUp()
      requires WellFormed(annotation)
      modifies this`annotation
      ensures annotation == Unbanned(Pruned(WithBanned(old(annotation))), paths)
    {
      if BannedKey !in annotation {
        annotation := annotation[BannedKey := Banned({})];
      }
      assert annotation[BannedKey].Banned?;
      var toDelete := EmptyKeysOf(annotation);
      DeleteKeys(toDelete);
      UnbanAnnotated();
    }

    /** The deletion loop over `to_delete`. */
    method DeleteKeys(keys: set<string>)
      modifies this`annotation
      ensures annotation == old(annotation) - keys
    {
      var remaining := keys;
      while remaining != {}
        invariant remaining <= keys
        invariant annotation == old(annotation) - (keys - remaining)
        decreases remaining
      {
        var p :| p in remaining;
        annotation := annotation - {p};
        remaining := remaining - {p};
      }
      assert keys - remaining == keys;
    }

    /** The loop over the paths that takes annotated ones out of the banned set. */
    method UnbanAnnotated()
      requires BannedKey in annotation && annotation[BannedKey].Banned?
      modifies this`annotation
      ensures annotation == Unbanned(old(annotation), paths)
    {
      ghost var m := annotation;
      ghost var taken: set<string> := {};
      assert m == m[BannedKey := Banned(BannedSet(m) - taken)] by {
        assert BannedSet(m) - taken == m[BannedKey].members;
      }
      var i := 0;
      while i < |paths|
        invariant 0 <= i <= |paths|
        invariant taken == set p | p in paths[..i] && p in m
        invariant annotation == m[BannedKey := Banned(BannedSet(m) - taken)]
      {
        var p := paths[i];
        assert paths[..i + 1] == paths[..i] + [p];
        assert BannedSet(annotation) == BannedSet(m) - taken;
        assert p in annotation <==> p in m;
        if p in BannedSet(annotation) && p in annotation {
          annotation := annotation[BannedKey := Banned(BannedSet(annotation) - {p})];
          assert BannedSet(m) - taken - {p} == BannedSet(m) - (taken + {p});
          assert annotation == m[BannedKey := Banned(BannedSet(m) - (taken + {p}))];
        } else if p in m {
          assert BannedSet(m) - taken == BannedSet(m) - (taken + {p});
        }
        taken := if p in m then taken + {p} else taken;
        i := i + 1;
      }
      assert paths[..i] == paths;
    }

    /** load_next: steps forward, wrapping, to the next eligible path and shows it. */
    method LoadNext()
      requires Ready() && -1 <= iter < |paths|
      requires exists j :: 0 <= j < |paths| && Eligible(j)
      modifies this
      ensures Valid() && Eligible(iter)
      ensures forall j :: 0 <= j < |paths| && Forward(old(iter), j, |paths|) < Forward(old(iter), iter, |paths|) ==> !Eligible(j)
      ensures shown == paths[iter]
      ensures annotation == old(annotation) && moving == old(moving) && stored == old(stored)
    {
      var n := |paths|;
      ghost var start := iter;
      ghost var target :| 0 <= target < n && Eligible(target);
      NextIndex(iter, n);
      iter := (iter + 1) % n;
      while !Eligible(iter)
        invariant 0 <= iter < n
        invariant forall j :: 0 <= j < n && Forward(start, j, n) < Forward(start, iter, n) ==> !Eligible(j)
        invariant Forward(start, iter, n) <= Forward(start, target, n)
        invariant annotation == old(annotation) && moving == old(moving) && stored == old(stored)
        decreases Forward(start, target, n) - Forward(start, iter, n)
      {
        assert iter != target;
        ForwardStep(start, iter, n);
        NextIndex(iter, n);
        iter := (iter + 1) % n;
      }
      shown := paths[iter];
    }

    /** load_prev: steps backward, wrapping, to the previous eligible path and shows it. */
    method LoadPrev()
      requires Valid()
      requires exists j :: 0 <= j < |paths| && Eligible(j)
      modifies this
      ensures Valid() && Eligible(iter)
      ensures forall j :: 0 <= j < |paths| && Backward(old(iter), j, |paths|) < Backward(old(iter), iter, |paths|) ==> !Eligible(j)
      ensures shown == paths[iter]
      ensures annotation == old(annotation) && moving == old(moving) && stored == old(stored)
    {
      var n := |paths|;
      ghost var start := iter;
      ghost var target :| 0 <= target < n && Eligible(target);
      PrevIndex(iter, n);
      iter := (iter - 1 + n) % n;
      while !Eligible(iter)
        invariant 0 <= iter < n
        invariant forall j :: 0 <= j < n && Backward(start, j, n) < Backward(start, iter, n) ==> !Eligible(j)
        invariant Backward(start, iter, n) <= Backward(start, target, n)
        invariant annotation == old(annotation) && moving == old(moving) && stored == old(stored)
        decreases Backward(start, target, n) - Backward(start, iter, n)
      {
        assert iter != target;
        BackwardStep(start, iter, n);
        PrevIndex(iter, n);
        iter := (iter - 1 + n) % n;
      }
      shown := paths[iter];
    }

    /**
     * load_next_not_annotated: steps forward to the next eligible path without
     * points, settling for an eligible index 0 once the search wraps there.
     */
    method LoadNextNotAnnotated()
      requires Valid()
      requires exists j :: 0 <= j < |paths| && NotAnnotatedStop(j)
      modifies this
      ensures Valid() && NotAnnotatedStop(iter)
      ensures forall j :: 0 <= j < |paths| && Forward(old(iter), j, |paths|) < Forward(old(iter), iter, |paths|) ==> !NotAnnotatedStop(j)
      ensures shown == paths[iter]
      ensures annotation == old(annotation) && moving == old(moving) && stored == old(stored)
    {
      var n := |paths|;
      ghost var start := iter;
      ghost var target :| 0 <= target < n && NotAnnotatedStop(target);
      NextIndex(iter, n);
      iter := (iter + 1) % n;
      while !NotAnnotatedStop(iter)
        invariant 0 <= iter < n
        invariant forall j :: 0 <= j < n && Forward(start, j, n) < Forward(start, iter, n) ==> !NotAnnotatedStop(j)
        invariant Forward(start, iter, n) <= Forward(start, target, n)
        invariant annotation == old(annotation) && moving == old(moving) && stored == old(stored)
        decreases Forward(start, target, n) - Forward(start, iter, n)
      {
        assert iter != target;
        ForwardStep(start, iter, n);
        NextIndex(iter, n);
        iter := (iter + 1) % n;
      }
      shown := paths[iter];
    }

    /**
     * load_prev_not_annotated: steps backward to the previous eligible path
     * without points, settling for an eligible index 0 once the search reaches it.
     */
    method LoadPrevNotAnnotated()
      requires Valid()
      requires exists j :: 0 <= j < |paths| && NotAnnotatedStop(j)
      modifies this
      ensures Valid() && NotAnnotatedStop(iter)
      ensures forall j :: 0 <= j < |paths| && Backward(old(iter), j, |paths|) < Backward(old(iter), iter, |paths|) ==> !NotAnnotatedStop(j)
      ensures shown == paths[iter]
      ensures annotation == old(annotation) && moving == old(moving) && stored == old(stored)
    {
      var n := |paths|;
      ghost var start := iter;
      ghost var target :| 0 <= target < n && NotAnnotatedStop(target);
      PrevIndex(iter, n);
      iter := (iter - 1 + n) % n;
      while !NotAnnotatedStop(iter)
        invariant 0 <= iter < n
        invariant forall j :: 0 <= j < n && Backward(start, j, n) < Backward(start, iter, n) ==> !NotAnnotatedStop(j)
        invariant Backward(start, iter, n) <= Backward(start, target, n)
        invariant annotation == old(annotation) && moving == old(moving) && stored == old(stored)
        decreases Backward(start, target, n) - Backward(start, iter, n)
      {
        assert iter != target;
        BackwardStep(start, iter, n);
        PrevIndex(iter, n);
        iter := (iter - 1 + n) % n;
      }
      shown := paths[iter];
    }
    /**
     * on_mouse_button. A press over the current image starts dragging the
     * point `nearest` names: the index numpy's argmin picks when that point
     * lies closer than 2, computed by the caller from the current point list.
     * A release adds the point, or drops the dragged one at the position, and
     * saves; a dragged index past the end of the current list raises
     * IndexError after the empty list for an unannotated image was inserted.
     */
    method OnMouseButton(down: bool, lx: real, ly: real, nearest: Option<nat>) returns (ok: bool)
      requires Valid()
      requires down && nearest.Some? && paths[iter] in annotation ==> nearest.value < Size(annotation[paths[iter]])
      modifies this
      ensures Valid() && iter == old(iter) && shown == old(shown)
      ensures down ==>
        && ok && annotation == old(annotation) && stored == old(stored)
        && moving == (if paths[iter] in annotation && Size(annotation[paths[iter]]) > 0 && nearest.Some?
                      then nearest else old(moving))
      ensures !down ==>
        var k := paths[iter];
        var pts := if k in old(annotation) then old(annotation)[k].pts else [];
        var p := Point(lx, ly);
        if old(moving).Some? && old(moving).value >= |pts| then
          && !ok && moving == old(moving) && stored == old(stored)
          && annotation == old(annotation)[k := Points(pts)]
        else
          && ok && moving == None && stored == Some(annotation)
          && k in annotation && annotation == old(annotation)[k := annotation[k]]
          && annotation[k].Points?
          && (old(moving).Some? ==>
                var i := old(moving).value;
                |annotation[k].pts| == |pts| && annotation[k].pts[i] == p
                && forall j :: 0 <= j < |pts| && j != i ==> annotation[k].pts[j] == pts[j])
          && (old(moving).None? ==> annotation[k].pts == pts + [p])
    {
      var k := paths[iter];
      ok := true;
      if down {
        if k in annotation {
          var points := annotation[k].pts;
          if |points| > 0 && nearest.Some? {
            moving := nearest;
          }
        }
      }
      if !down {
        if k !in annotation {
          annotation := annotation[k := Points([])];
        }
        var points := annotation[k].pts;
        if moving.Some? {
          if moving.value >= |points| {
            return false;
          }
          annotation := annotation[k := Points(points[moving.value := Point(lx, ly)])];
          moving := None;
        } else {
          annotation := annotation[k := Points(points + [Point(lx, ly)])];
        }
        stored := Some(annotation);
      }
    }

    /**
     * on_mouse_position: moves the dragged point. The current image may not
     * be the one the drag started on: without points there it raises
     * KeyError, with too few IndexError, and nothing changes.
     */
    method OnMousePosition(lx: real, ly: real) returns (ok: bool)
      requires Valid()
      modifies this`annotation
      ensures Valid()
      ensures var k := paths[iter];
        if old(moving).None? then ok && annotation == old(annotation)
        else if k !in old(annotation) || moving.value >= Size(old(annotation)[k]) then
          !ok && annotation == old(annotation)
        else
          ok && annotation == old(annotation)[k := Points(old(annotation)[k].pts[moving.value := Point(lx, ly)])]
    {
      ok := true;
      if moving.Some? {
        var k := paths[iter];
        if k !in annotation || moving.value >= |annotation[k].pts| {
          return false;
        }
        annotation := annotation[k := Points(annotation[k].pts[moving.value := Point(lx, ly)])];
      }
    }

    /**
     * on_keyboard. Left and Right step to the previous and next eligible
     * image, Down and Up to the previous and next unannotated one; Delete
     * drops the current image's points and Backspace its last point, both
     * saving; 'B' bans the current image without saving. Only a key that
     * equals the str 'B' bans: the key codes are ints.
     */
    method OnKeyboard(key: PyKey, down: bool)
      requires Valid()
      requires down && (key == IntKey(KeyLeft) || key == IntKey(KeyRight)) ==>
        exists j :: 0 <= j < |paths| && Eligible(j)
      requires down && (key == IntKey(KeyUp) || key == IntKey(KeyDown)) ==>
        exists j :: 0 <= j < |paths| && NotAnnotatedStop(j)
      modifies this
      ensures Valid() && moving == old(moving)
      ensures !down || key !in {IntKey(KeyLeft), IntKey(KeyRight), IntKey(KeyUp), IntKey(KeyDown)} ==>
        iter == old(iter) && shown == old(shown)
      ensures !down || key !in {IntKey(KeyDelete), IntKey(KeyBackspace), StrKey("B")} ==>
        annotation == old(annotation) && stored == old(stored)
      ensures down && key == IntKey(KeyLeft) ==>
        && Eligible(iter) && shown == paths[iter]
        && forall j :: 0 <= j < |paths| && Backward(old(iter), j, |paths|) < Backward(old(iter), iter, |paths|) ==> !Eligible(j)
      ensures down && key == IntKey(KeyRight) ==>
        && Eligible(iter) && shown == paths[iter]
        && forall j :: 0 <= j < |paths| && Forward(old(iter), j, |paths|) < Forward(old(iter), iter, |paths|) ==> !Eligible(j)
      ensures down && key == IntKey(KeyUp) ==>
        && NotAnnotatedStop(iter) && shown == paths[iter]
        && forall j :: 0 <= j < |paths| && Forward(old(iter), j, |paths|) < Forward(old(iter), iter, |paths|) ==> !NotAnnotatedStop(j)
      ensures down && key == IntKey(KeyDown) ==>
        && NotAnnotatedStop(iter) && shown == paths[iter]
        && forall j :: 0 <= j < |paths| && Backward(old(iter), j, |paths|) < Backward(old(iter), iter, |paths|) ==> !NotAnnotatedStop(j)
      ensures down && key == IntKey(KeyDelete) ==>
        annotation == old(annotation) - {paths[iter]} && stored == Some(annotation)
      ensures down && key == IntKey(KeyBackspace) ==>
        var k := paths[iter];
        && stored == Some(annotation)
        && if k in old(annotation) && Size(old(annotation)[k]) > 0 then
             var pts := old(annotation)[k].pts;
             annotation == old(annotation)[k := Points(pts[..|pts| - 1])]
           else annotation == old(annotation)
      ensures down && key == StrKey("B") ==>
        annotation == old(annotation)[BannedKey := Banned(BannedSet(old(annotation)) + {paths[iter]})]
        && stored == old(stored)
    {
      if down {
        if key == IntKey(KeyLeft) {
          LoadPrev();
        }
        if key == IntKey(KeyRight) {
          LoadNext();
        }
        if key == IntKey(KeyUp) {
          LoadNextNotAnnotated();
        }
        if key == IntKey(KeyDown) {
          LoadPrevNotAnnotated();
        }
        if key == IntKey(KeyDelete) {
          var k := paths[iter];
          if k in annotation {
            annotation := annotation - {k};
          }
          stored := Some(annotation);
        }
        if key == IntKey(KeyBackspace) {
          var k := paths[iter];
          if k in annotation && Size(annotation[k]) > 0 {
            var points := annotation[k].pts;
            annotation := annotation[k := Points(points[..|points| - 1])];
          }
          stored := Some(annotation);
        }
        if key == StrKey("B") {
          annotation := annotation[BannedKey := Banned(BannedSet(annotation) + {paths[iter]})];
        }
      }
    }
  }
}
