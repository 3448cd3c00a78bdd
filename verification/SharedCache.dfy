/**
 The cache's memory: values are byte buffers on the heap, copied on the way in
 and on the way out, so no caller ever holds a buffer of the cache.
 */
module SharedCache {
  import opened Params

  type Buffer = array<Byte>

  type Buffers = map<ParamID, Buffer>

  /** The bytes behind a map of buffers. */
  function BytesOf(m: Buffers): Values
    reads m.Values
  {
    map p | p in m :: m[p][..]
  }

  method CopyBuffer(b: Buffer) returns (c: Buffer)
    ensures fresh(c) && c[..] == b[..]
  {
    c := new Byte[b.Length];
    for i := 0 to b.Length
      invariant c[..i] == b[..i]
    {
      c[i] := b[i];
    }
  }

  /** A copy that shares no buffer with its source, nor with anything else. */
  method CloneValues(src: Buffers) returns (out: Buffers)
    ensures out.Keys == src.Keys && BytesOf(out) == BytesOf(src)
    ensures forall p :: p in out ==> fresh(out[p])
  {
    out := map[];
    var todo := src.Keys;
    while todo != {}
      invariant todo <= src.Keys && out.Keys == src.Keys - todo
      invariant forall p :: p in out ==> fresh(out[p]) && out[p][..] == src[p][..]
      decreases todo
    {
      var p :| p in todo;
      var c := CopyBuffer(src[p]);
      out := out[p := c];
      todo := todo - {p};
    }
  }

  function Seen(view: map<string, Values>, name: string): Values {
    if name in view then view[name] else map[]
  }

  class SharedState {
    var snaps: map<string, Buffers>

    /** Every buffer the cache holds. */
    ghost function Owned(): set<Buffer>
      reads this
    {
      set n, p | n in snaps && p in snaps[n] :: snaps[n][p]
    }

    /** What readers see. */
    ghost function View(): map<string, Values>
      reads this, Owned()
    {
      map n | n in snaps :: OneView(n)
    }

    ghost function OneView(n: string): Values
      requires n in snaps
      reads this, Owned()
    {
      map p | p in snaps[n] :: snaps[n][p][..]
    }

    constructor ()
      ensures View() == map[] && Owned() == {}
    {
      snaps := map[];
    }

    /** The caller gets its own buffers, and may do what it likes with them. */
    method Get(name: string) returns (values: Buffers, ok: bool)
      ensures ok <==> name in View()
      ensures ok ==> BytesOf(values) == View()[name]
      ensures forall p :: p in values ==> fresh(values[p])
    {
      if name !in snaps {
        return map[], false;
      }
      values := CloneValues(snaps[name]);
      assert BytesOf(snaps[name]) == OneView(name);
      ok := true;
    }

    /** The cache keeps its own copy: the caller's buffers stay the caller's. */
    method Set(name: string, values: Buffers)
      modifies this
      ensures View() == old(View())[name := BytesOf(values)]
      ensures forall o :: o in Owned() ==> o in old(Owned()) || fresh(o)
    {
      var copy := CloneValues(values);
      Install(name, copy);
    }

    /** Put a map of buffers in place, buffers and all. */
    method Install(name: string, values: Buffers)
      modifies this
      ensures View() == old(View())[name := BytesOf(values)]
      ensures Owned() <= old(Owned()) + values.Values
    {
      hide OneView, BytesOf;
      ghost var view := View();
      label before:
      snaps := snaps[name := values];
      NewView(name);
      forall n | n in snaps && n != name
        ensures OneView(n) == view[n]
      {
        SameView@before(n);
      }
    }

    twostate lemma SameView(n: string)
      requires n in snaps && n in old(snaps) && snaps[n] == old(snaps[n])
      requires forall b: Buffer :: b in old(Owned()) ==> b[..] == old(b[..])
      ensures OneView(n) == old(OneView(n))
    {
    }

    lemma NewView(n: string)
      requires n in snaps
      ensures OneView(n) == BytesOf(snaps[n])
    {
    }

    /** Copy on write: the map and the written buffers are new, the others carried over. */
    method WriteThrough(name: string, ids: seq<ParamID>, buffers: seq<Buffer>)
      requires |ids| == |buffers|
      modifies this
      ensures ids == [] ==> View() == old(View())
      ensures ids != [] ==>
                View() == old(View())[name := Store(Seen(old(View()), name), Written(ids, buffers))]
      ensures forall o :: o in Owned() ==> o in old(Owned()) || fresh(o)
    {
      hide OneView;
      if |ids| == 0 {
        return;
      }
      var values: Buffers := if name in snaps then snaps[name] else map[];
      if name in snaps {
        NewView(name);
      }
      assert BytesOf(map[]) == map[];
      values := Overlay(values, ids, buffers);
      Install(name, values);
    }

    /** A reader that overwrites every byte it was given leaves the cache as it was. */
    method ReadAndScribble(name: string, b: Byte) returns (values: Buffers, ok: bool)
      ensures ok <==> name in View()
      ensures ok ==> values.Keys == View()[name].Keys
      ensures forall p :: p in values ==> fresh(values[p]) && AllAre(values[p], b)
      ensures View() == old(View())
    {
      hide OneView;
      ghost var owned, view := Owned(), View();
      values, ok := Get(name);
      var todo := values.Keys;
      while todo != {}
        invariant todo <= values.Keys && View() == view && Owned() == owned
        invariant forall p :: p in values && p !in todo ==> AllAre(values[p], b)
        decreases todo
      {
        var p :| p in todo;
        assert values[p] !in owned;
        Scribble(values[p], b);
        todo := todo - {p};
      }
    }
  }

  /** A map with copies of the given buffers over it; the map it came from is not touched. */
  method Overlay(base: Buffers, ids: seq<ParamID>, buffers: seq<Buffer>) returns (values: Buffers)
    requires |ids| == |buffers|
    ensures BytesOf(values) == Store(BytesOf(base), Written(ids, buffers))
    ensures forall o :: o in values.Values ==> o in base.Values || fresh(o)
  {
    hide Store;
    ghost var writes := Written(ids, buffers);
    values := base;
    StoreOneByOne(BytesOf(base), writes, 0);
    for i := 0 to |ids|
      invariant BytesOf(values) == Store(BytesOf(base), writes[..i])
      invariant forall o :: o in values.Values ==> o in base.Values || fresh(o)
    {
      var c := CopyBuffer(buffers[i]);
      StoreOneByOne(BytesOf(base), writes, i);
      assert BytesOf(values[ids[i] := c]) == BytesOf(values)[ids[i] := c[..]];
      values := values[ids[i] := c];
    }
    assert writes[..|ids|] == writes;
  }

  lemma StoreOneByOne(m: Values, writes: seq<ParamWrite>, i: nat)
    ensures Store(m, writes[..0]) == m
    ensures i < |writes| ==> Store(m, writes[..i + 1]) == Store(m, writes[..i])[writes[i].id := writes[i].value]
  {
    if i < |writes| {
      assert writes[..i + 1] == writes[..i] + [writes[i]];
      StoreAppend(m, writes[..i], [writes[i]]);
    }
  }

  ghost predicate AllAre(buffer: Buffer, b: Byte)
    reads buffer
  {
    forall i :: 0 <= i < buffer.Length ==> buffer[i] == b
  }

  method Scribble(buffer: Buffer, b: Byte)
    modifies buffer
    ensures AllAre(buffer, b)
  {
    for i := 0 to buffer.Length
      invariant forall k :: 0 <= k < i ==> buffer[k] == b
    {
      buffer[i] := b;
    }
  }

  /** The writes behind parallel lists of identifiers and buffers. */
  ghost function Written(ids: seq<ParamID>, buffers: seq<Buffer>): seq<ParamWrite>
    requires |ids| == |buffers|
    reads buffers
  {
    seq(|ids|, i requires 0 <= i < |ids| reads buffers => ParamWrite(ids[i], buffers[i][..]))
  }
}
