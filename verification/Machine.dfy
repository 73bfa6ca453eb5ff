/** The interpreters as they run: Assignment02/src/interpreter.cpp and Assignment02/src/stack.h,
    and their unchecked twins in Assignment04.  Every method does what its function in
    Interpreter says. */
module Machine {
  import opened Bytecode
  import I = Interpreter

  type Value = I.Value

  ghost predicate Became(spec: Result<I.State>, t: I.State, r: Result<bool>) {
    if spec.Ok? then r.Ok? && t == spec.value else r == spec.PropagateFailure()
  }

  ghost predicate Got<T>(spec: Result<(I.State, T)>, t: I.State, r: Result<T>) {
    if spec.Ok? then r == Ok(spec.value.1) && t == spec.value.0 else r == spec.PropagateFailure()
  }

  class Machine {
    const c: I.Context
    const buf: array<Value>
    var ip: nat
    var frames: seq<I.Frame>
    var sp: nat
    var tmp: bool
    var heap: seq<I.Object>
    var input: seq<int>
    var output: seq<int>

    function View(): I.State
      reads this, buf
    {
      I.State(ip, frames, buf[..], sp, tmp, heap, input, output)
    }

    constructor (c: I.Context, words: seq<int>)
      ensures this.c == c && fresh(buf)
      ensures I.Start(c.img, words).Ok? ==> View() == I.Start(c.img, words).value
    {
      this.c := c;
      buf := new Value[I.MAX_STACK_SIZE](_ => I.Null);
      ip, frames, sp, tmp := 0, [], c.img.globals + 2, false;
      heap, input, output := [], words, [];
    }

    // Code and stack

    method FetchByte() returns (r: Result<Byte>)
      modifies this
      ensures Got(I.FetchByte(c, old(View())), View(), r)
    {
      var p := ip;
      ip := U32(ip + 1);
      var _ :- Validate(c.checked ==> ip < |c.img.code|, EndOfCode);
      r := if p < |c.img.code| then Ok(c.img.code[p]) else Stuck;
    }

    method FetchIntIf(validate: bool) returns (r: Result<int>)
      modifies this
      ensures Got(I.FetchIntIf(validate, c, old(View())), View(), r)
    {
      var p := ip;
      ip := U32(ip + 4);
      var _ :- Validate(validate ==> ip < |c.img.code|, EndOfCode);
      r := if p + 4 <= |c.img.code| then Ok(Int32At(c.img.code, p)) else Stuck;
    }

    method FetchInt() returns (r: Result<int>)
      modifies this
      ensures Got(I.FetchInt(c, old(View())), View(), r)
    {
      r := FetchIntIf(c.checked);
    }

    method Write(pos: int, v: Value) returns (r: Result<bool>)
      modifies buf
      ensures Became(I.Write(old(View()), pos, v), View(), r)
    {
      if 0 <= pos < buf.Length {
        buf[pos] := v;
        r := Ok(true);
      } else {
        r := Stuck;
      }
    }

    method Push(v: Value) returns (r: Result<bool>)
      modifies this, buf
      ensures Became(I.Push(c, old(View()), v), View(), r)
    {
      var _ :- Validate(c.checked ==> sp + 1 <= I.MAX_STACK_SIZE, Overflow);
      sp := sp + 1;
      r := Write(sp - 1, v);
    }

    method Pop() returns (r: Result<Value>)
      modifies this
      ensures Got(I.Pop(c, old(View())), View(), r)
    {
      var _ :- Validate(c.checked ==> sp > 0, Underflow);
      var v :- I.Read(View(), sp - 1);
      sp := sp - 1;
      r := Ok(v);
    }

    method PopMany(n: nat) returns (r: Result<bool>)
      modifies this
      ensures Became(I.PopMany(c, old(View()), n), View(), r)
    {
      var _ :- Validate(c.checked ==> sp >= n, Underflow);
      if sp < n { return Stuck; }
      sp := sp - n;
      r := Ok(true);
    }

    method SetReturn() returns (r: Result<bool>)
      modifies this
      ensures Became(I.SetReturn(old(View())), View(), r)
    {
      var f :- I.TopFrame(View());
      frames := frames[|frames| - 1 := f.(ret := ip)];
      r := Ok(true);
    }

    // Objects

    method Alloc(o: I.Object) returns (v: Value)
      modifies this
      ensures (View(), v) == I.Alloc(old(View()), o)
    {
      v := I.Obj(|heap|);
      heap := heap + [o];
    }

    method SetElement(id: nat, i: nat, v: Value) returns (r: Result<bool>)
      requires id < |heap| && !heap[id].Closure? && i < I.Size(heap[id])
      modifies this
      ensures Became(I.SetElement(old(View()), id, i, v), View(), r)
    {
      var o := heap[id];
      if !o.Text? {
        heap := heap[id := o.(items := o.items[i := v])];
      } else if v.Int? {
        heap := heap[id := I.Text(o.chars[i := (v.n % 0x100) as char])];
      } else {
        return Stuck;
      }
      r := Ok(true);
    }

    method Store(address: Value, v: Value) returns (r: Result<bool>)
      modifies this, buf
      ensures Became(I.Store(old(View()), address, v), View(), r)
    {
      if address.Slot? {
        r := Write(address.pos, v);
      } else if address.CaptureSlot? && address.closure < |heap| && heap[address.closure].Closure?
             && address.index < |heap[address.closure].captures| {
        var o := heap[address.closure];
        heap := heap[address.closure := o.(captures := o.captures[address.index := v])];
        r := Ok(true);
      } else {
        r := Stuck;
      }
    }

    // Instructions

    method ExecBinop(operator: Byte) returns (r: Result<bool>)
      modifies this, buf
      ensures Became(I.ExecBinop(c, old(View()), operator), View(), r)
    {
      var y :- Pop();
      var x :- Pop();
      var _ :- Validate(x.Int?, Invalid);
      var _ :- Validate(y.Int?, Invalid);
      var n :- I.Binary(operator, I32(x.n), I32(y.n));
      r := Push(I.Int(n));
    }

    /** The two object constructions that reach above the stack. */
    method MakeSexp(h: int, n: int) returns (r: Result<bool>)
      modifies this, buf
      ensures Became(I.MakeSexp(c, old(View()), h, n), View(), r)
    {
      var _ :- Write(sp, I.Int(h));
      var _ :- Validate(n <= I.W.MAX_EXTRA_ROOTS_NUMBER, RuntimeLimit);
      if !(0 <= n <= sp <= buf.Length) { return Stuck; }
      var v := Alloc(I.Sexp(h, buf[sp - n..sp]));
      var _ := PopMany(n);
      r := Push(v);
    }

    method WrapCaptures(target: int, n: int) returns (r: Result<bool>)
      modifies this, buf
      ensures Became(I.WrapCaptures(c, old(View()), target, n), View(), r)
    {
      var _ :- Validate(n + 1 <= I.W.MAX_EXTRA_ROOTS_NUMBER, RuntimeLimit);
      if !(0 <= n < sp < buf.Length) { return Stuck; }
      var v := Alloc(I.Closure(target, buf[sp - n..sp + 1]));
      var _ := PopMany(n + 1);
      r := Push(v);
    }

    method ExecEq() returns (r: Result<bool>)
      modifies this, buf
      ensures Became(I.ExecEq(c, old(View())), View(), r)
    {
      var y :- Pop();
      var x :- Pop();
      var _ :- Validate(x.Int? || y.Int?, Invalid);
      var equal := false;
      if x.Int? && y.Int? { equal := I32(x.n) == I32(y.n); }
      r := Push(I.Int(if equal then 1 else 0));
    }

    method ExecConst() returns (r: Result<bool>)
      modifies this, buf
      ensures Became(I.ExecConst(c, old(View())), View(), r)
    {
      var n :- FetchInt();
      r := Push(I.Int(n));
    }

    method ExecString() returns (r: Result<bool>)
      modifies this, buf
      ensures Became(I.ExecString(c, old(View())), View(), r)
    {
      var pos :- FetchInt();
      var _ :- Validate(c.checked ==> 0 <= pos < |c.img.strings|, Invalid);
      var chars :- I.StringAt(c, pos);
      var v := Alloc(I.Text(chars));
      r := Push(v);
    }

    method ExecSexp() returns (r: Result<bool>)
      modifies this, buf
      ensures Became(I.ExecSexp(c, old(View())), View(), r)
    {
      var pos :- FetchInt();
      var n :- FetchInt();
      var _ :- Validate(c.checked ==> n >= 0, Invalid);
      var _ :- Validate(c.checked ==> 0 <= pos < |c.img.strings|, Invalid);
      var tag :- I.StringAt(c, pos);
      var _ :- Validate(c.lib.hashable(tag), Invalid);
      r := MakeSexp(c.lib.tagHash(tag), n);
    }

    method ExecSti() returns (r: Result<bool>)
      modifies this, buf
      ensures Became(I.ExecSti(c, old(View())), View(), r)
    {
      var address :- Pop();
      var _ :- Validate(!address.Int?, Invalid);
      var v :- Pop();
      var _ :- Store(address, v);
      r := Push(v);
    }

    method ExecSta() returns (r: Result<bool>)
      modifies this, buf
      ensures Became(I.ExecSta(c, old(View())), View(), r)
    {
      var v :- Pop();
      var selector :- Pop();
      if !selector.Int? {
        var _ :- Store(selector, v);
        r := Push(v);
      } else {
        var i := I32(selector.n);
        var target :- Pop();
        var o :- I.Aggregate(View(), target);
        var _ :- Validate(0 <= i < I.Size(o), Invalid);
        if !(target.Obj? && target.id < |heap| && !heap[target.id].Closure? && i < I.Size(heap[target.id])) {
          return Stuck;
        }
        var _ :- SetElement(target.id, i, v);
        r := Push(v);
      }
    }

    method ExecJmp() returns (r: Result<bool>)
      modifies this, buf
      ensures Became(I.ExecJmp(c, old(View())), View(), r)
    {
      var target :- FetchInt();
      var _ :- Validate(c.checked ==> 0 <= target < |c.img.code|, Invalid);
      ip := U32(target);
      r := Ok(true);
    }

    /** True when there is no caller left. */
    method ExecRet() returns (r: Result<bool>)
      modifies this, buf
      ensures var spec := I.ExecRet(c, old(View()));
        if spec.Ok? then r == Ok(spec.value.Halt?) && View() == spec.value.state else r == spec.PropagateFailure()
    {
      hide U32, I.Pop, I.Push;
      var v :- Pop();
      var _ :- Validate(frames != [], Underflow);
      var f := frames[|frames| - 1];
      frames := frames[..|frames| - 1];
      var bottom := U32(f.base - f.args) - if f.closure then 1 else 0;
      if bottom < 0 { return Stuck; }
      sp := bottom;
      if frames == [] { return Ok(true); }
      ip := frames[|frames| - 1].ret;
      var _ :- Push(v);
      r := Ok(false);
    }

    method ExecDrop() returns (r: Result<bool>)
      modifies this, buf
      ensures Became(I.ExecDrop(c, old(View())), View(), r)
    {
      var _ :- Pop();
      r := Ok(true);
    }

    method ExecDup() returns (r: Result<bool>)
      modifies this, buf
      ensures Became(I.ExecDup(c, old(View())), View(), r)
    {
      var v :- I.Read(View(), sp - 1);
      r := Push(v);
    }

    method ExecSwap() returns (r: Result<bool>)
      modifies this, buf
      ensures Became(I.ExecSwap(c, old(View())), View(), r)
    {
      var x :- Pop();
      var y :- Pop();
      var _ :- Push(y);
      r := Push(x);
    }

    method ExecElem() returns (r: Result<bool>)
      modifies this, buf
      ensures Became(I.ExecElem(c, old(View())), View(), r)
    {
      var index :- Pop();
      var _ :- Validate(index.Int?, Invalid);
      var i := I32(index.n);
      var target :- Pop();
      var o :- I.Aggregate(View(), target);
      var _ :- Validate(0 <= i < I.Size(o), Invalid);
      if o.Closure? { return Stuck; }
      r := Push(I.Element(o, i));
    }

    method ExecLd(place: Place) returns (r: Result<bool>)
      modifies this, buf
      ensures Became(I.ExecLd(c, old(View()), place), View(), r)
    {
      var index :- FetchIntIf(c.checked || place.Captured?);
      var address :- I.Locate(c, View(), place, index);
      var v :- I.Load(View(), address);
      r := Push(v);
    }

    method ExecLda(place: Place) returns (r: Result<bool>)
      modifies this, buf
      ensures Became(I.ExecLda(c, old(View()), place), View(), r)
    {
      var index :- FetchIntIf(c.checked || place.Captured?);
      var address :- I.Locate(c, View(), place, index);
      r := Push(address);
    }

    method ExecSt(place: Place) returns (r: Result<bool>)
      modifies this, buf
      ensures Became(I.ExecSt(c, old(View()), place), View(), r)
    {
      var v :- Pop();
      var index :- FetchIntIf(c.checked || place.Captured?);
      var address :- I.Locate(c, View(), place, index);
      var _ :- Store(address, v);
      r := Push(v);
    }

    method ExecCjmp(nz: bool) returns (r: Result<bool>)
      modifies this, buf
      ensures Became(I.ExecCjmp(c, old(View()), nz), View(), r)
    {
      var target :- FetchInt();
      var _ :- Validate(c.checked ==> 0 <= target < |c.img.code|, Invalid);
      var cond :- Pop();
      var _ :- Validate(cond.Int?, Invalid);
      if I32(cond.n) == (if nz then 1 else 0) { ip := U32(target); }
      r := Ok(true);
    }

    method ExecBegin(cbegin: bool) returns (r: Result<bool>)
      modifies this, buf
      ensures Became(I.ExecBegin(c, old(View()), cbegin), View(), r)
    {
      var args :- FetchInt();
      var operand :- FetchInt();
      var locals, room := U32(operand), operand;
      if c.checked {
        var _ :- Validate(args >= 0, Invalid);
        var _ :- Validate(operand >= 0, Invalid);
      } else {
        room := HighHalf(operand);
        locals := LowHalf(operand);
      }
      var f := I.Frame(U32(sp), locals, U32(args), cbegin || tmp, I.NO_ADDRESS);
      if !cbegin { tmp := false; }
      var _ :- Validate(sp + room <= I.MAX_STACK_SIZE, Overflow);
      sp := sp + locals;
      var _ :- Validate(|frames| + 1 <= I.MAX_FRAMES_SIZE, Overflow);
      frames := frames + [f];
      r := Ok(true);
    }

    method ExecCapture() returns (r: Result<bool>)
      modifies this, buf
      ensures Became(I.ExecCapture(c, old(View())), View(), r)
    {
      var b :- FetchByte();
      var index :- FetchInt();
      if b >= 4 { return Fails(Invalid); }
      var address :- I.Locate(c, View(), PlaceOf(b), index);
      var v :- I.Load(View(), address);
      r := Push(v);
    }

    method ExecCaptures(n: nat) returns (r: Result<bool>)
      modifies this, buf
      ensures Became(I.ExecCaptures(c, old(View()), n), View(), r)
    {
      hide I.ExecCapture;
      ghost var all := I.ExecCaptures(c, View(), n);
      var i := 0;
      while i < n
        invariant 0 <= i <= n
        invariant all == I.ExecCaptures(c, View(), n - i)
      {
        var _ :- ExecCapture();
        i := i + 1;
      }
      r := Ok(true);
    }

    method ExecClosure() returns (r: Result<bool>)
      modifies this, buf
      ensures Became(I.ExecClosure(c, old(View())), View(), r)
    {
      var target :- FetchInt();
      var n :- FetchInt();
      var _ :- Validate(c.checked ==> 0 <= target < |c.img.code|, Invalid);
      var _ :- Validate(c.checked ==> n >= 0, Invalid);
      var _ :- Push(I.Int(target));
      var _ :- I.TopFrame(View());
      var _ :- ExecCaptures(if n < 0 then 0 else n);
      r := WrapCaptures(target, n);
    }

    method ExecCallc() returns (r: Result<bool>)
      modifies this, buf
      ensures Became(I.ExecCallc(c, old(View())), View(), r)
    {
      hide U32, I32, OpOf, Int32At, I.FetchIntIf, I.Is, I.SetReturn;
      var n :- FetchInt();
      var _ :- Validate(c.checked ==> n >= 0, Invalid);
      var _ :- SetReturn();
      var target :- I.Read(View(), sp - U32(n) - 1);
      var isClosure :- I.Is(View(), target, AClosure);
      var _ :- Validate(isClosure, Invalid);
      var o :- I.Header(View(), target);
      if !o.Closure? { return Stuck; }
      var _ :- Validate(U32(o.code) < |c.img.code|, Invalid);
      ip := U32(o.code);
      tmp := true;
      var _ :- Validate(Enters(OpOf(c.img.code[ip])), Invalid);
      r := Ok(true);
    }

    method ExecCall() returns (r: Result<bool>)
      modifies this, buf
      ensures Became(I.ExecCall(c, old(View())), View(), r)
    {
      var target :- FetchInt();
      var n :- FetchInt();
      var _ :- Validate(c.checked ==> 0 <= target < |c.img.code|, Invalid);
      var _ :- Validate(c.checked ==> n >= 0, Invalid);
      var _ :- SetReturn();
      ip := U32(target);
      tmp := false;
      var op :- I.PeekOp(c, ip);
      var _ :- Validate(op.Begin?, Invalid);
      r := Ok(true);
    }

    method ExecTag() returns (r: Result<bool>)
      modifies this, buf
      ensures Became(I.ExecTag(c, old(View())), View(), r)
    {
      var pos :- FetchInt();
      var n :- FetchInt();
      var _ :- Validate(c.checked ==> 0 <= pos < |c.img.strings|, Invalid);
      var _ :- Validate(c.checked ==> n >= 0, Invalid);
      var v :- Pop();
      var isSexp :- I.Is(View(), v, ASexp);
      var matches := false;
      if isSexp {
        var tag :- I.StringAt(c, pos);
        var _ :- Validate(c.lib.hashable(tag), Invalid);
        var o :- I.Header(View(), v);
        matches := o.Sexp? && o.tag == c.lib.tagHash(tag) && |o.items| == n;
      }
      r := Push(I.Int(if matches then 1 else 0));
    }

    method ExecArrayPatt() returns (r: Result<bool>)
      modifies this, buf
      ensures Became(I.ExecArrayPatt(c, old(View())), View(), r)
    {
      var n :- FetchInt();
      var _ :- Validate(c.checked ==> n >= 0, Invalid);
      var v :- Pop();
      var matches := false;
      if !v.Int? {
        var o :- I.Header(View(), v);
        matches := o.Array? && |o.items| == n;
      }
      r := Push(I.Int(if matches then 1 else 0));
    }

    method ExecFail() returns (r: Result<bool>)
      modifies this, buf
      ensures Became(I.ExecFail(c, old(View())), View(), r)
    {
      var _ :- FetchInt();
      var _ :- FetchInt();
      var _ :- Pop();
      r := Fails(MatchFailure);
    }

    method ExecLine() returns (r: Result<bool>)
      modifies this, buf
      ensures Became(I.ExecLine(c, old(View())), View(), r)
    {
      var _ :- FetchInt();
      r := Ok(true);
    }

    method ExecPattStr() returns (r: Result<bool>)
      modifies this, buf
      ensures Became(I.ExecPattStr(c, old(View())), View(), r)
    {
      var y :- Pop();
      var x :- Pop();
      if !y.Int? {
        var isText :- I.Is(View(), y, AString);
        var _ :- Validate(isText, Invalid);
      }
      var isText :- I.Is(View(), x, AString);
      var matches := false;
      if isText {
        var p :- I.Header(View(), y);
        var o :- I.Header(View(), x);
        matches := o.Text? && p.Text? && I.W.CString(o.chars, '\0') == I.W.CString(p.chars, '\0');
      }
      r := Push(I.Int(if matches then 1 else 0));
    }

    method ExecPatt(kind: Kind) returns (r: Result<bool>)
      modifies this, buf
      ensures Became(I.ExecPatt(c, old(View()), kind), View(), r)
    {
      var v :- Pop();
      var yes :- I.Is(View(), v, kind);
      r := Push(I.Int(if yes then 1 else 0));
    }

    method ExecLread() returns (r: Result<bool>)
      modifies this, buf
      ensures Became(I.ExecLread(c, old(View())), View(), r)
    {
      var n := 1;
      if input != [] {
        n := input[0];
        input := input[1..];
      }
      r := Push(I.Int(n));
    }

    method ExecLwrite() returns (r: Result<bool>)
      modifies this, buf
      ensures Became(I.ExecLwrite(c, old(View())), View(), r)
    {
      var v :- Pop();
      var _ :- Validate(v.Int?, Invalid);
      output := output + [v.n];
      r := Push(I.Null);
    }

    method ExecLlength() returns (r: Result<bool>)
      modifies this, buf
      ensures Became(I.ExecLlength(c, old(View())), View(), r)
    {
      var v :- Pop();
      var o :- I.Aggregate(View(), v);
      r := Push(I.Int(I32(I.Size(o))));
    }

    method ExecLstring() returns (r: Result<bool>)
      modifies this, buf
      ensures Became(I.ExecLstring(c, old(View())), View(), r)
    {
      var v :- Pop();
      var w := Alloc(I.Text(c.lib.text(heap, v)));
      r := Push(w);
    }

    method ExecBarray() returns (r: Result<bool>)
      modifies this, buf
      ensures Became(I.ExecBarray(c, old(View())), View(), r)
    {
      var n :- FetchInt();
      var _ :- Validate(c.checked ==> n >= 0, Invalid);
      var _ :- Validate(n <= I.W.MAX_EXTRA_ROOTS_NUMBER, RuntimeLimit);
      if !(0 <= n <= sp <= buf.Length) { return Stuck; }
      var v := Alloc(I.Array(buf[sp - n..sp]));
      var _ := PopMany(n);
      r := Push(v);
    }

    method ExecUnknown() returns (r: Result<bool>)
      ensures Became(Fails(Invalid), View(), r)
    {
      r := Fails(Invalid);
    }

    method ExecMaking(op: Op) returns (r: Result<bool>)
      requires MakesObject(op)
      modifies this, buf
      ensures Became(I.Exec(c, old(View()), op), View(), r)
    {
      hide Became, I.ExecBarray, I.ExecClosure, I.ExecLstring, I.ExecSexp, I.ExecString;
      match op
      case Str => r := ExecString();
      case MakeSexp => r := ExecSexp();
      case MakeClosure => r := ExecClosure();
      case Lstring => r := ExecLstring();
      case Barray => r := ExecBarray();
    }

    method ExecLooking(op: Op) returns (r: Result<bool>)
      requires LooksAtObject(op)
      modifies this, buf
      ensures Became(I.Exec(c, old(View()), op), View(), r)
    {
      hide Became, I.ExecArrayPatt, I.ExecElem, I.ExecLlength, I.ExecPatt, I.ExecPattStr, I.ExecSta, I.ExecTag;
      match op
      case Sta => r := ExecSta();
      case Elem => r := ExecElem();
      case Tag => r := ExecTag();
      case ArrayPatt => r := ExecArrayPatt();
      case PattStr => r := ExecPattStr();
      case Patt(kind) => r := ExecPatt(kind);
      case Llength => r := ExecLlength();
    }

    method ExecOther(op: Op) returns (r: Result<bool>)
      requires !MakesObject(op) && !LooksAtObject(op) && !op.Ret? && !op.Stop?
      modifies this, buf
      ensures Became(I.Exec(c, old(View()), op), View(), r)
    {
      hide Became, I.ExecBegin, I.ExecBinop, I.ExecCall, I.ExecCallc, I.ExecCjmp, I.ExecConst, I.ExecDrop,
        I.ExecDup, I.ExecEq, I.ExecFail, I.ExecJmp, I.ExecLd, I.ExecLda, I.ExecLine, I.ExecLread, I.ExecLwrite,
        I.ExecSt, I.ExecSti, I.ExecSwap;
      match op
      case Fail => r := ExecFail();
      case Lread => r := ExecLread();
      case Lwrite => r := ExecLwrite();
      case Binop(k) => r := ExecBinop(k);
      case Eq => r := ExecEq();
      case Const => r := ExecConst();
      case Sti => r := ExecSti();
      case Jmp => r := ExecJmp();
      case Drop => r := ExecDrop();
      case Dup => r := ExecDup();
      case Swap => r := ExecSwap();
      case Ld(place) => r := ExecLd(place);
      case Lda(place) => r := ExecLda(place);
      case St(place) => r := ExecSt(place);
      case Cjmp(nz) => r := ExecCjmp(nz);
      case Begin => r := ExecBegin(false);
      case Cbegin => r := ExecBegin(true);
      case Callc => r := ExecCallc();
      case Call => r := ExecCall();
      case Line => r := ExecLine();
      case Unknown => r := ExecUnknown();
    }

    method Exec(op: Op) returns (r: Result<bool>)
      requires !op.Ret? && !op.Stop?
      modifies this, buf
      ensures Became(I.Exec(c, old(View()), op), View(), r)
    {
      if MakesObject(op) { r := ExecMaking(op); }
      else if LooksAtObject(op) { r := ExecLooking(op); }
      else { r := ExecOther(op); }
    }

    /** One turn of the main loop; true when it ends. */
    method Step() returns (r: Result<bool>)
      modifies this, buf
      ensures var spec := I.Step(c, old(View()));
        if spec.Ok? then r == Ok(spec.value.Halt?) && View() == spec.value.state else r == spec.PropagateFailure()
    {
      hide I.Exec, I.ExecRet, OpOf;
      var b :- FetchByte();
      var op := OpOf(b);
      if op.Ret? {
        r := ExecRet();
      } else if op.Stop? {
        r := Ok(true);
      } else {
        var _ :- Exec(op);
        r := Ok(false);
      }
    }

    /** The main loop, for at most n turns. */
    method Interpret(n: nat) returns (r: Result<bool>)
      modifies this, buf
      ensures var spec := I.Run(c, old(View()), n);
        if spec.Ok? then r == Ok(spec.value.Halt?) && View() == spec.value.state else r == spec.PropagateFailure()
    {
      hide I.Step;
      ghost var all := I.Run(c, View(), n);
      var i, done := 0, false;
      while i < n && !done
        invariant 0 <= i <= n
        invariant if done then all == Ok(I.Halt(View())) else all == I.Run(c, View(), n - i)
      {
        done :- Step();
        i := i + 1;
      }
      r := Ok(done);
    }
  }
}
