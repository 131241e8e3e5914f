/** Sequences of atomic sector writes over an array of sectors of any content type.
    A crash is a prefix of such a sequence. */
module Sectors {

  datatype Write<T> = Write(block: nat, data: T)

  ghost predicate InDisk<T>(d: seq<T>, ws: seq<Write<T>>) {
    forall i | 0 <= i < |ws| :: ws[i].block < |d|
  }

  ghost function Apply<T>(d: seq<T>, ws: seq<Write<T>>): (r: seq<T>)
    requires InDisk(d, ws)
    ensures |r| == |d|
  {
    if ws == [] then d
    else Apply(d, ws[..|ws| - 1])[ws[|ws| - 1].block := ws[|ws| - 1].data]
  }

  lemma {:induction false} ApplyConcat<T>(d: seq<T>, u: seq<Write<T>>, v: seq<Write<T>>)
    requires InDisk(d, u) && InDisk(d, v)
    ensures InDisk(d, u + v) && Apply(d, u + v) == Apply(Apply(d, u), v)
    decreases |v|
  {
    if v == [] {
      assert u + v == u;
    } else {
      ApplyConcat(d, u, v[..|v| - 1]);
      assert (u + v)[..|u + v| - 1] == u + v[..|v| - 1];
    }
  }

  lemma {:induction false} ApplyStep<T>(d: seq<T>, ws: seq<Write<T>>, k: nat)
    requires InDisk(d, ws) && k < |ws|
    ensures Apply(d, ws[..k + 1]) == Apply(d, ws[..k])[ws[k].block := ws[k].data]
  {
    assert ws[..k + 1][..k] == ws[..k];
  }

  ghost predicate Distinct<T>(ws: seq<Write<T>>) {
    forall i, j | 0 <= i < j < |ws| :: ws[i].block != ws[j].block
  }

  ghost predicate Touches<T(!new)>(ws: seq<Write<T>>, b: nat) {
    exists i | 0 <= i < |ws| :: ws[i].block == b
  }

  lemma {:induction false} ApplyMisses<T(!new)>(d: seq<T>, ws: seq<Write<T>>, b: nat)
    requires InDisk(d, ws) && b < |d| && !Touches(ws, b)
    ensures Apply(d, ws)[b] == d[b]
  {
    if ws != [] {
      assert ws[|ws| - 1].block != b;
      ApplyMisses(d, ws[..|ws| - 1], b);
    }
  }

  lemma {:induction false} ApplyHits<T>(d: seq<T>, ws: seq<Write<T>>, i: nat)
    requires InDisk(d, ws) && i < |ws| && Distinct(ws)
    ensures Apply(d, ws)[ws[i].block] == ws[i].data
  {
    if i < |ws| - 1 {
      assert ws[i].block != ws[|ws| - 1].block;
      ApplyHits(d, ws[..|ws| - 1], i);
    }
  }

  /** First position of b in lh, or |lh|: the search of log_write. */
  function IndexOf(lh: seq<nat>, b: int): (i: nat)
    ensures i <= |lh|
    ensures i < |lh| ==> lh[i] == b
    ensures forall j | 0 <= j < i :: lh[j] != b
  {
    if lh == [] then 0 else if lh[0] == b then 0 else 1 + IndexOf(lh[1..], b)
  }

  /** log.start, log.size (header included) and the number of sectors. */
  datatype Geometry = Geometry(start: nat, size: nat, total: nat) {
    ghost predicate Valid() {
      1 <= size && start + size <= total <= 0x1_0000_0000
    }

    ghost predicate Home(b: int) {
      0 <= b < total && !(start <= b < start + size)
    }

    /** The list fits the log area, names home blocks only, and names none twice. */
    ghost predicate Loggable(lh: seq<nat>) {
      && |lh| <= size - 1
      && (forall i | 0 <= i < |lh| :: Home(lh[i]))
      && (forall i, j | 0 <= i < j < |lh| :: lh[i] != lh[j])
    }
  }

  /** Copies of the log area into the home blocks: install_trans. */
  ghost function Installs<T>(g: Geometry, d: seq<T>, lh: seq<nat>): (ws: seq<Write<T>>)
    requires g.Valid() && |d| == g.total && g.Loggable(lh)
    ensures InDisk(d, ws) && |ws| == |lh|
  {
    seq(|lh|, i requires 0 <= i < |lh| => Write(lh[i], d[g.start + 1 + i]))
  }

  /** Copies of the pinned buffers into the log area: write_log. */
  ghost function Appends<T>(g: Geometry, d: seq<T>, cache: map<nat, T>, lh: seq<nat>): (ws: seq<Write<T>>)
    requires g.Valid() && |d| == g.total && g.Loggable(lh)
    requires forall i | 0 <= i < |lh| :: lh[i] in cache
    ensures InDisk(d, ws) && |ws| == |lh|
  {
    seq(|lh|, i requires 0 <= i < |lh| => Write(g.start + 1 + i, cache[lh[i]]))
  }

  /** The pinned buffers once every block of lh was written out. */
  ghost function Unpin<T>(cache: map<nat, T>, lh: seq<nat>): (r: map<nat, T>) {
    map b | b in cache && b !in lh :: cache[b]
  }

  lemma {:induction false} UnpinStep<T>(cache: map<nat, T>, lh: seq<nat>, k: nat)
    requires k < |lh|
    ensures Unpin(cache, lh[..k + 1]) == Unpin(cache, lh[..k]) - {lh[k]}
  {
    assert lh[..k + 1] == lh[..k] + [lh[k]];
  }

  /** Block b as a log listing lh would have it. */
  ghost function Redo<T>(g: Geometry, d: seq<T>, lh: seq<nat>, b: nat): (r: T)
    requires g.Valid() && |d| == g.total && g.Loggable(lh) && b < g.total
  {
    var i := IndexOf(lh, b);
    if i < |lh| then d[g.start + 1 + i] else d[b]
  }

  /** j installs done: the log area is untouched, and a home block is redone once it was reached. */
  lemma {:induction false} InstallPrefix<T(!new)>(g: Geometry, d: seq<T>, lh: seq<nat>, j: nat, b: nat)
    requires g.Valid() && |d| == g.total && g.Loggable(lh) && j <= |lh| && b < g.total
    ensures Apply(d, Installs(g, d, lh)[..j])[b] == if IndexOf(lh, b) < j then Redo(g, d, lh, b) else d[b]
  {
    var inst := Installs(g, d, lh)[..j];
    var i := IndexOf(lh, b);
    if i < j {
      assert inst[i].block == b;
      ApplyHits(d, inst, i);
    } else {
      ApplyMisses(d, inst, b);
    }
  }

  /** Redoing everything again after j installs gives the same blocks. */
  lemma {:induction false} InstallRedo<T(!new)>(g: Geometry, d: seq<T>, lh: seq<nat>, j: nat, b: nat)
    requires g.Valid() && |d| == g.total && g.Loggable(lh) && j <= |lh| && g.Home(b)
    ensures Redo(g, Apply(d, Installs(g, d, lh)[..j]), lh, b) == Redo(g, d, lh, b)
  {
    var i := IndexOf(lh, b);
    InstallPrefix(g, d, lh, j, b);
    if i < |lh| {
      InstallPrefix(g, d, lh, j, g.start + 1 + i);
    }
  }

  /** k log blocks appended, then (k == |lh| + 1) the header sector h. */
  lemma {:induction false} AppendPrefix<T(!new)>(g: Geometry, d: seq<T>, cache: map<nat, T>, lh: seq<nat>, h: T,
        k: nat, b: nat)
    requires g.Valid() && |d| == g.total && g.Loggable(lh) && b < g.total
    requires forall i | 0 <= i < |lh| :: lh[i] in cache
    requires k <= |lh| + 1
    ensures Apply(d, (Appends(g, d, cache, lh) + [Write(g.start, h)])[..k])[b] ==
            if g.start < b <= g.start + k && b <= g.start + |lh| then cache[lh[b - g.start - 1]]
            else if b == g.start && k == |lh| + 1 then h
            else d[b]
  {
    var ws := (Appends(g, d, cache, lh) + [Write(g.start, h)])[..k];
    if g.start < b <= g.start + k && b <= g.start + |lh| {
      ApplyHits(d, ws, b - g.start - 1);
    } else if b == g.start && k == |lh| + 1 {
      ApplyHits(d, ws, |lh|);
    } else {
      ApplyMisses(d, ws, b);
    }
  }

  /** All log blocks and the header h appended: redoing the list gives the pinned contents. */
  lemma {:induction false} AppendRedo<T(!new)>(g: Geometry, d: seq<T>, cache: map<nat, T>, lh: seq<nat>, h: T, b: nat)
    requires g.Valid() && |d| == g.total && g.Loggable(lh) && g.Home(b)
    requires forall i | 0 <= i < |lh| :: lh[i] in cache
    ensures Redo(g, Apply(d, Appends(g, d, cache, lh) + [Write(g.start, h)]), lh, b) ==
            if IndexOf(lh, b) < |lh| then cache[b] else d[b]
  {
    var ws := Appends(g, d, cache, lh) + [Write(g.start, h)];
    assert ws[..|lh| + 1] == ws;
    AppendPrefix(g, d, cache, lh, h, |lh| + 1, b);
    var i := IndexOf(lh, b);
    if i < |lh| {
      AppendPrefix(g, d, cache, lh, h, |lh| + 1, g.start + 1 + i);
    }
  }
}
