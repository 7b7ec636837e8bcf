/** Byte vectors that share a buffer until one of them is changed
    (taglib_mod/toolkit/tbytevector.cpp, ByteVectorPrivate and the members that detach). */
module SharedVectors {
  import opened Bytes

  function Fill(n: nat, padding: byte): seq<byte> {
    seq(n, _ => padding)
  }

  /** What resizing means for plain bytes. */
  function Resized(s: seq<byte>, size: nat, padding: byte): seq<byte> {
    if size <= |s| then s[..size] else s + Fill(size - |s|, padding)
  }

  /** The bytes and the reference counter that vectors share. The ghost set names the vectors that do. */
  class Buffer {
    var counter: nat
    var data: seq<byte>
    ghost var sharers: set<ByteVector>

    /** The counter is the number of vectors that share the buffer. */
    ghost predicate Valid()
      reads this, sharers
    {
      counter == |sharers| && forall v | v in sharers :: v.buffer == this && v.offset + v.length <= |data|
    }

    constructor (data: seq<byte>)
      ensures counter == 1 && this.data == data && sharers == {}
    {
      counter, this.data, sharers := 1, data, {};
    }
  }

  class ByteVector {
    var buffer: Buffer
    var offset: nat
    var length: nat

    /** The vector is alive: its buffer counts it. */
    ghost predicate Valid()
      reads this, buffer, buffer.sharers
    {
      this in buffer.sharers && buffer.Valid()
    }

    ghost function Contents(): (s: seq<byte>)
      requires Valid()
      reads this, buffer, buffer.sharers
      ensures |s| == length
    {
      buffer.data[offset..offset + length]
    }

    constructor Of(s: seq<byte>)
      ensures Valid() && fresh(buffer) && Contents() == s && buffer.sharers == {this}
    {
      offset, length := 0, |s|;
      buffer := new Buffer(s);
      new;
      buffer.sharers := {this};
    }

    /** Shares the buffer of `v`; nothing is copied. */
    constructor Part(v: ByteVector, offset: nat, length: nat)
      requires v.Valid() && offset + length <= v.length
      modifies v.buffer`counter, v.buffer`sharers
      ensures Valid() && buffer == v.buffer && buffer.sharers == old(v.buffer.sharers) + {this}
      ensures Contents() == old(v.Contents())[offset..offset + length]
      ensures forall u | u in old(v.buffer.sharers) :: u.Valid() && u.Contents() == old(u.Contents())
    {
      buffer, this.offset, this.length := v.buffer, v.offset + offset, length;
      new;
      ghost var before := buffer.sharers;
      assert this !in before && v.Valid();
      SliceOfSlice(buffer.data, v.offset, v.length, offset, length);
      buffer.counter := buffer.counter + 1;
      buffer.sharers := before + {this};
      assert |buffer.sharers| == |before| + 1;
      assert forall u | u in before :: u.buffer == buffer && u.offset + u.length <= |buffer.data|;
      assert buffer.Valid();
    }

    /** The destructor's part: the buffer is deleted with its last vector. */
    method Destroy() returns (deleted: bool)
      requires Valid()
      modifies buffer`counter, buffer`sharers
      ensures buffer.Valid() && buffer.sharers == old(buffer.sharers) - {this}
      ensures forall u | u in buffer.sharers :: u.Valid() && u.Contents() == old(u.Contents())
      ensures deleted <==> buffer.sharers == {}
    {
      buffer.counter := buffer.counter - 1;
      buffer.sharers := buffer.sharers - {this};
      deleted := buffer.counter == 0;
    }

    /** Afterwards nobody shares the vector's buffer. */
    method Detach()
      requires Valid()
      modifies this, buffer`counter, buffer`sharers
      ensures Valid() && buffer.sharers == {this} && Contents() == old(Contents()) && length == old(length)
      ensures if old(buffer.counter) > 1 then fresh(buffer) else buffer == old(buffer)
      ensures forall u | u in old(buffer.sharers) && u != this :: u.Valid() && u.Contents() == old(u.Contents())
      ensures old(buffer).sharers <= old(buffer.sharers)
    {
      if buffer.counter > 1 {
        var copy := new Buffer(buffer.data[offset..offset + length]);
        var unused := Destroy();
        buffer, offset := copy, 0;
        buffer.sharers := {this};
      } else {
        OnlySharer(buffer.sharers, this);
      }
    }

    method Resize(size: nat, padding: byte)
      requires Valid()
      modifies this, buffer
      ensures Valid() && Contents() == Resized(old(Contents()), size, padding)
      ensures size != old(length) ==> buffer.sharers == {this} && |buffer.data| == offset + length
      ensures
        size == old(length) || old(buffer.sharers) == {this} ==>
          buffer == old(buffer) && buffer.sharers == old(buffer.sharers)
      ensures fresh(buffer) || buffer == old(buffer)
      ensures forall u | u in old(buffer.sharers) && u != this :: u.Valid() && u.Contents() == old(u.Contents())
      ensures old(buffer).sharers <= old(buffer.sharers)
    {
      if size != length {
        Detach();
        hide Resized;
        ResizeAlone(size, padding);
      }
    }

    method ResizeAlone(size: nat, padding: byte)
      requires Valid() && buffer.sharers == {this}
      modifies this`length, buffer`data
      ensures Valid() && Contents() == Resized(old(Contents()), size, padding)
      ensures length == size && |buffer.data| == offset + length
    {
      ghost var all := buffer.data;
      hide Resized;
      ResizedPart(all, offset, length, size, padding);
      buffer.data := Resized(buffer.data, offset + length, 0);
      buffer.data := Resized(buffer.data, offset + size, padding);
      length := size;
      assert buffer.Valid();
      assert buffer.data[offset..offset + length] == buffer.data[offset..];
    }

    /** `operator[]` and an assignment through it */
    method SetAt(index: nat, value: byte)
      requires Valid() && index < length
      modifies this, buffer
      ensures Valid() && Contents() == old(Contents())[index := value]
      ensures fresh(buffer) || buffer == old(buffer)
      ensures buffer.sharers == {this}
      ensures forall u | u in old(buffer.sharers) && u != this :: u.Valid() && u.Contents() == old(u.Contents())
      ensures old(buffer).sharers <= old(buffer.sharers)
    {
      Detach();
      ghost var all := buffer.data;
      buffer.data := buffer.data[offset + index := value];
      assert all[offset..offset + length][index := value] == buffer.data[offset..offset + length];
    }

    /** Copies the first bytes of `v` behind the original ones, of a vector already grown for them. */
    method CopyIn(v: ByteVector, originalSize: nat, appendSize: nat)
      requires Valid() && buffer.sharers == {this} && v.Valid() && appendSize <= v.length
      requires length == originalSize + appendSize && |buffer.data| == offset + length
      modifies buffer`data
      ensures Valid() && Contents() == old(Contents())[..originalSize] + old(v.Contents())[..appendSize]
    {
      ghost var mine := Contents();
      var bytes := v.buffer.data[v.offset..v.offset + appendSize];
      assert bytes == v.Contents()[..appendSize];
      buffer.data := buffer.data[..offset + originalSize] + bytes;
      assert Contents() == mine[..originalSize] + bytes;
    }

    /** `v` may be this vector: its size is read before the resize, its bytes after. */
    method Append(v: ByteVector)
      requires Valid() && v.Valid()
      modifies this, buffer
      ensures Valid() && Contents() == old(Contents()) + old(v.Contents())
      ensures fresh(buffer) || buffer == old(buffer)
      ensures buffer.sharers == {this} || buffer.sharers == old(buffer.sharers)
      ensures forall u | u in old(buffer.sharers) && u != this :: u.Valid() && u.Contents() == old(u.Contents())
      ensures old(buffer).sharers <= old(buffer.sharers)
    {
      if v.length == 0 {
        return;
      }
      ghost var mine, theirs := Contents(), v.Contents();
      Detach();
      assert v.Valid() && v.Contents() == theirs;
      assert v == this || v.buffer != buffer;
      AppendAlone(v);
    }

    method AppendAlone(v: ByteVector)
      requires Valid() && buffer.sharers == {this} && v.Valid() && v.length > 0
      modifies this, buffer
      ensures Valid() && Contents() == old(Contents()) + old(v.Contents())
      ensures buffer == old(buffer) && buffer.sharers == {this}
    {
      ghost var mine, theirs := Contents(), v.Contents();
      var originalSize, appendSize := length, v.length;
      Resize(originalSize + appendSize, 0);
      assert v.Valid() && v.Contents()[..appendSize] == theirs;
      assert Contents()[..originalSize] == mine;
      CopyIn(v, originalSize, appendSize);
    }
  }

  lemma SliceOfSlice(s: seq<byte>, a: nat, n: nat, b: nat, m: nat)
    requires a + n <= |s| && b + m <= n
    ensures s[a..a + n][b..b + m] == s[a + b..a + b + m]
  {
    var t, u, v := s[a..a + n], s[a..a + n][b..b + m], s[a + b..a + b + m];
    forall k | 0 <= k < m
      ensures u[k] == v[k]
    {
      assert u[k] == t[b + k] == s[a + (b + k)];
    }
  }

  lemma OnlySharer(sharers: set<ByteVector>, v: ByteVector)
    requires v in sharers && |sharers| <= 1
    ensures sharers == {v}
  {
    assert |sharers - {v}| == 0;
  }

  /** Cutting the buffer after the vector before it grows pads the vector itself. */
  lemma ResizedPart(all: seq<byte>, offset: nat, length: nat, size: nat, padding: byte)
    requires offset + length <= |all|
    ensures
      var after := Resized(Resized(all, offset + length, 0), offset + size, padding);
      |after| == offset + size && after[offset..] == Resized(all[offset..offset + length], size, padding)
  {
    var cut := Resized(all, offset + length, 0);
    assert cut == all[..offset + length] && cut[offset..] == all[offset..offset + length];
    if size <= length {
      assert cut[..offset + size][offset..] == cut[offset..][..size];
    } else {
      assert Fill(size - length, padding) == Fill(offset + size - |cut|, padding);
      assert (cut + Fill(size - length, padding))[offset..] == cut[offset..] + Fill(size - length, padding);
    }
  }

  // ----- Programs over vectors -----

  /** An operation on vectors named by their place in a list; a new vector goes to the end of the list. */
  datatype Op =
    | New(bytes: seq<byte>)
    | Copy(from: nat)
    | Mid(from: nat, index: nat, length: nat)
    | Append(to: nat, from: nat)
    | Resize(to: nat, size: nat, padding: byte)
    | SetAt(to: nat, index: nat, value: byte)
    | Destroy(to: nat)

  function Without<T>(s: seq<T>, i: nat): seq<T>
    requires i < |s|
  {
    s[..i] + s[i + 1..]
  }

  /** The operation is one that the program may ask for. */
  predicate Allowed(values: seq<seq<byte>>, op: Op) {
    match op
    case New(_) => true
    case Copy(from) => from < |values|
    case Mid(from, _, _) => from < |values|
    case Append(to, from) => to < |values| && from < |values|
    case Resize(to, _, _) => to < |values|
    case SetAt(to, index, _) => to < |values| && index < |values[to]|
    case Destroy(to) => to < |values|
  }

  /** The same operation on plain byte sequences, which share nothing. */
  function Pure(values: seq<seq<byte>>, op: Op): seq<seq<byte>>
    requires Allowed(values, op)
  {
    match op
    case New(bytes) => values + [bytes]
    case Copy(from) => values + [values[from]]
    case Mid(from, index, length) => values + [Window(values[from], index, length)]
    case Append(to, from) => values[to := values[to] + values[from]]
    case Resize(to, size, padding) => values[to := Resized(values[to], size, padding)]
    case SetAt(to, index, value) => values[to := values[to][index := value]]
    case Destroy(to) => Without(values, to)
  }

  function PureRun(values: seq<seq<byte>>, ops: seq<Op>): Option<seq<seq<byte>>> {
    if ops == [] then Some(values)
    else
      var before := PureRun(values, ops[..|ops| - 1]);
      if before.None? || !Allowed(before.value, ops[|ops| - 1]) then None else Some(Pure(before.value, ops[|ops| - 1]))
  }

  ghost predicate Alive(vectors: seq<ByteVector>)
    reads vectors, set v | v in vectors :: v.buffer, set v, u | v in vectors && u in v.buffer.sharers :: u
  {
    && (forall i, j | 0 <= i < j < |vectors| :: vectors[i] != vectors[j])
    && (forall v | v in vectors :: v.Valid())
    && (forall v, u | v in vectors && u in v.buffer.sharers :: u in vectors)
  }

  ghost predicate Show(vectors: seq<ByteVector>, values: seq<seq<byte>>)
    requires Alive(vectors)
    reads vectors, set v | v in vectors :: v.buffer, set v, u | v in vectors && u in v.buffer.sharers :: u
  {
    |vectors| == |values| && forall i | 0 <= i < |vectors| :: vectors[i].Contents() == values[i]
  }

  method SetOne(vectors: seq<ByteVector>, to: nat, index: nat, value: byte, ghost values: seq<seq<byte>>)
    requires Alive(vectors) && Show(vectors, values) && to < |values| && index < |values[to]|
    modifies vectors, set v | v in vectors :: v.buffer
    ensures Alive(vectors) && Show(vectors, values[to := values[to][index := value]])
    ensures forall v | v in vectors :: fresh(v.buffer) || v.buffer == old(v.buffer)
  {
    hide Resized;
    ghost var mine := vectors[to];
    vectors[to].SetAt(index, value);
    forall j | 0 <= j < |vectors| && j != to
      ensures vectors[j].Valid() && vectors[j].Contents() == values[j] && vectors[j].buffer == old(vectors[j].buffer)
      ensures vectors[j].buffer.sharers <= old(vectors[j].buffer.sharers)
    {
      if vectors[j] !in old(mine.buffer.sharers) {
        assert old(vectors[j].Valid());
        assert vectors[j].buffer != old(mine.buffer);
      }
    }
  }

  method ResizeOne(vectors: seq<ByteVector>, to: nat, size: nat, padding: byte, ghost values: seq<seq<byte>>)
    requires Alive(vectors) && Show(vectors, values) && to < |values|
    modifies vectors, set v | v in vectors :: v.buffer
    ensures Alive(vectors) && Show(vectors, values[to := Resized(values[to], size, padding)])
    ensures forall v | v in vectors :: fresh(v.buffer) || v.buffer == old(v.buffer)
  {
    hide Resized;
    ghost var mine := vectors[to];
    vectors[to].Resize(size, padding);
    forall j | 0 <= j < |vectors| && j != to
      ensures vectors[j].Valid() && vectors[j].Contents() == values[j] && vectors[j].buffer == old(vectors[j].buffer)
      ensures vectors[j].buffer.sharers <= old(vectors[j].buffer.sharers)
    {
      if vectors[j] !in old(mine.buffer.sharers) {
        assert old(vectors[j].Valid());
        assert vectors[j].buffer != old(mine.buffer);
      }
    }
  }

  method AppendOne(vectors: seq<ByteVector>, to: nat, from: nat, ghost values: seq<seq<byte>>)
    requires Alive(vectors) && Show(vectors, values) && to < |values| && from < |values|
    modifies vectors, set v | v in vectors :: v.buffer
    ensures Alive(vectors) && Show(vectors, values[to := values[to] + values[from]])
    ensures forall v | v in vectors :: fresh(v.buffer) || v.buffer == old(v.buffer)
  {
    hide Resized;
    ghost var mine := vectors[to];
    vectors[to].Append(vectors[from]);
    forall j | 0 <= j < |vectors| && j != to
      ensures vectors[j].Valid() && vectors[j].Contents() == values[j] && vectors[j].buffer == old(vectors[j].buffer)
      ensures vectors[j].buffer.sharers <= old(vectors[j].buffer.sharers)
    {
      if vectors[j] !in old(mine.buffer.sharers) {
        assert old(vectors[j].Valid());
        assert vectors[j].buffer != old(mine.buffer);
      }
    }
  }

  method MakeNew(vectors: seq<ByteVector>, bytes: seq<byte>, ghost values: seq<seq<byte>>) returns (v: ByteVector)
    requires Alive(vectors) && Show(vectors, values)
    modifies set v | v in vectors :: v.buffer
    ensures Alive(vectors + [v]) && Show(vectors + [v], values + [bytes])
    ensures fresh(v) && (fresh(v.buffer) || v.buffer in old(set u | u in vectors :: u.buffer))
  {
    v := new ByteVector.Of(bytes);
    forall j | 0 <= j < |vectors|
      ensures vectors[j].Valid() && vectors[j].Contents() == values[j]
      ensures vectors[j].buffer.sharers <= old(vectors[j].buffer.sharers) + {v}
    {
      assert old(vectors[j].Valid());
    }
  }

  method MakeMid(vectors: seq<ByteVector>, from: nat, index: nat, length: nat,
      ghost values: seq<seq<byte>>) returns (v: ByteVector)
    requires Alive(vectors) && Show(vectors, values) && from < |values|
    modifies set v | v in vectors :: v.buffer
    ensures Alive(vectors + [v]) && Show(vectors + [v], values + [Window(values[from], index, length)])
    ensures fresh(v) && (fresh(v.buffer) || v.buffer in old(set u | u in vectors :: u.buffer))
  {
    hide Window;
    MidIsWindow(values[from], index, length);
    var size := vectors[from].length;
    var start := Min(index, size);
    v := new ByteVector.Part(vectors[from], start, Min(length, size - start));
    forall j | 0 <= j < |vectors|
      ensures vectors[j].Valid() && vectors[j].Contents() == values[j]
      ensures vectors[j].buffer.sharers <= old(vectors[j].buffer.sharers) + {v}
    {
      assert old(vectors[j].Valid());
    }
  }

  /** What `mid` clips its arguments to is the window of plain bytes. */
  lemma MidIsWindow(s: seq<byte>, index: nat, length: nat)
    ensures var start := Min(index, |s|); Window(s, index, length) == s[start..start + Min(length, |s| - start)]
  {
  }

  method DestroyOne(vectors: seq<ByteVector>, to: nat, ghost values: seq<seq<byte>>)
    requires Alive(vectors) && Show(vectors, values) && to < |values|
    modifies set v | v in vectors :: v.buffer
    ensures Alive(Without(vectors, to)) && Show(Without(vectors, to), Without(values, to))
  {
    hide Without;
    ghost var mine := vectors[to];
    var deleted := vectors[to].Destroy();
    forall j | 0 <= j < |vectors| && j != to
      ensures vectors[j].Valid() && vectors[j].Contents() == values[j]
      ensures vectors[j].buffer.sharers <= old(vectors[j].buffer.sharers) - {mine}
    {
      assert old(vectors[j].Valid()) && vectors[j] in vectors;
    }
    WithoutOne(vectors, to);
    WithoutAt(vectors, to);
    WithoutAt(values, to);
  }

  lemma WithoutOne<T>(s: seq<T>, i: nat)
    requires i < |s| && forall j, k | 0 <= j < k < |s| :: s[j] != s[k]
    ensures forall x :: x in Without(s, i) <==> x in s && x != s[i]
    ensures forall j, k | 0 <= j < k < |Without(s, i)| :: Without(s, i)[j] != Without(s, i)[k]
  {
  }

  lemma WithoutAt<T>(s: seq<T>, i: nat)
    requires i < |s|
    ensures |Without(s, i)| == |s| - 1
    ensures forall j | 0 <= j < |Without(s, i)| :: Without(s, i)[j] == s[if j < i then j else j + 1]
  {
  }

  lemma CountersCount(vectors: seq<ByteVector>, v: ByteVector)
    requires Alive(vectors) && v in vectors
    ensures v.buffer.counter == |set u | u in vectors && u.buffer == v.buffer|
  {
    assert v.buffer.sharers == set u | u in vectors && u.buffer == v.buffer;
  }

  predicate IsAllowed(vectors: seq<ByteVector>, op: Op)
    reads vectors
  {
    match op
    case New(_) => true
    case Copy(from) => from < |vectors|
    case Mid(from, _, _) => from < |vectors|
    case Append(to, from) => to < |vectors| && from < |vectors|
    case Resize(to, _, _) => to < |vectors|
    case SetAt(to, index, _) => to < |vectors| && index < vectors[to].length
    case Destroy(to) => to < |vectors|
  }

  method Perform(before: seq<ByteVector>, op: Op, ghost values: seq<seq<byte>>) returns (vectors: seq<ByteVector>)
    requires Alive(before) && Show(before, values) && Allowed(values, op)
    modifies before, set v | v in before :: v.buffer
    ensures Alive(vectors) && Show(vectors, Pure(values, op))
    ensures forall v | v in vectors :: v in before || fresh(v)
    ensures forall v | v in vectors :: fresh(v.buffer) || v.buffer in old(set u | u in before :: u.buffer)
  {
    hide Window, Resized;
    vectors := before;
    if op.New? {
      var v := MakeNew(before, op.bytes, values);
      vectors := before + [v];
    } else if op.Copy? {
      WholeWindow(values[op.from]);
      var v := MakeMid(before, op.from, 0, before[op.from].length, values);
      vectors := before + [v];
    } else if op.Mid? {
      var v := MakeMid(before, op.from, op.index, op.length, values);
      vectors := before + [v];
    } else if op.Append? {
      AppendOne(before, op.to, op.from, values);
    } else if op.Resize? {
      ResizeOne(before, op.to, op.size, op.padding, values);
    } else if op.SetAt? {
      SetOne(before, op.to, op.index, op.value, values);
    } else {
      DestroyOne(before, op.to, values);
      vectors := Without(before, op.to);
    }
  }

  lemma WholeWindow(s: seq<byte>)
    ensures Window(s, 0, |s|) == s
  {
  }

  /** Carries out a program of vector operations, as far as it asks for what it may. The vectors hold what
      plain byte sequences would, and every buffer's counter is the number of vectors that share it. */
  method Execute(ops: seq<Op>) returns (vectors: seq<ByteVector>, done: nat, ghost values: seq<seq<byte>>)
    ensures done <= |ops| && Alive(vectors) && Show(vectors, values) && PureRun([], ops[..done]) == Some(values)
    ensures done < |ops| ==> !Allowed(values, ops[done])
    ensures forall v | v in vectors :: v.buffer.counter == |set u | u in vectors && u.buffer == v.buffer|
  {
    vectors, done, values := [], 0, [];
    while done < |ops| && IsAllowed(vectors, ops[done])
      invariant done <= |ops| && Alive(vectors) && Show(vectors, values) && PureRun([], ops[..done]) == Some(values)
      invariant forall v | v in vectors :: fresh(v) && fresh(v.buffer)
    {
      vectors := Perform(vectors, ops[done], values);
      assert ops[..done + 1][..done] == ops[..done];
      values := Pure(values, ops[done]);
      done := done + 1;
    }
    forall v | v in vectors
      ensures v.buffer.counter == |set u | u in vectors && u.buffer == v.buffer|
    {
      CountersCount(vectors, v);
    }
  }
}
