// Inlining a call site as the program does it, by editing the caller (src/ir/ir_ipa.c:428-664).

module InlineEditing {
  import opened Options
  import opened Ir
  import opened SsaIr
  import opened Inlining

  class SsaFunction {
    const name: string
    const params: nat
    var blocks: seq<SsaBlock>
    var nextReg: nat
    var nextBlock: nat

    constructor (f: Fn)
      ensures Now() == f
    { name, params, blocks, nextReg, nextBlock := f.name, f.params, f.blocks, f.nextReg, f.nextBlock; }

    function Now(): Fn
      reads this
    { Fn(name, params, blocks, nextReg, nextBlock) }

    /** Appends an empty block; its label and its number take one number each. */
    method CreateBlock() returns (id: nat)
      modifies `blocks, `nextBlock
      ensures id == old(nextBlock) + 1 && nextBlock == old(nextBlock) + 2
      ensures blocks == old(blocks) + [SsaBlock(id, [], [])]
    {
      nextBlock := nextBlock + 1;
      id := nextBlock;
      nextBlock := nextBlock + 1;
      blocks := blocks + [SsaBlock(id, [], [])];
    }

    /** Moves what follows the call to a block of its own and tells the phis of the successors. */
    method SplitAt(ghost s: Site, bi: nat, k: nat) returns (splitId: nat)
      requires Now() == s.caller && s.bi == bi && s.k == k && s.Valid()
      modifies `blocks, `nextBlock
      ensures splitId == s.SplitId() && nextBlock == old(nextBlock) + 2 && |blocks| == |s.caller.blocks| + 1
      ensures forall i :: 0 <= i < |s.caller.blocks| ==>
        blocks[i] == if i == bi
          then SsaBlock(s.Retarget(s.Block()).id, s.Retarget(s.Block()).phis, s.Block().insts[..k])
          else s.Retarget(s.caller.blocks[i])
      ensures blocks[|s.caller.blocks|] == SsaBlock(splitId, [], s.Block().insts[k+1..])
    {
      var b := blocks[bi];
      splitId := CreateBlock();
      var n := |blocks| - 1;
      blocks := blocks[n := SsaBlock(splitId, [], b.insts[k+1..])][bi := SsaBlock(b.id, b.phis, b.insts[..k])];
      var succs := SuccIds(b);
      var i := 0;
      while i < n
        invariant 0 <= i <= n == |s.caller.blocks| && |blocks| == n + 1
          && blocks[n] == SsaBlock(splitId, [], b.insts[k+1..])
        invariant forall j ::
          0 <= j < n && j != bi ==> blocks[j] == if j < i then s.Retarget(s.caller.blocks[j]) else s.caller.blocks[j]
        invariant nextBlock == old(nextBlock) + 2
        invariant blocks[bi] == SsaBlock(b.id, if bi < i then s.Retarget(b).phis else b.phis, b.insts[..k])
      {
        if blocks[i].id in succs {
          var phis := RetargetAll(s, blocks[i].phis, b.id, splitId);
          blocks := blocks[i := SsaBlock(blocks[i].id, phis, blocks[i].insts)];
        }
        i := i + 1;
      }
    }

    method RetargetAll(ghost s: Site, phis: seq<Phi>, from: nat, to: nat) returns (r: seq<Phi>)
      requires s.Valid() && from == s.Block().id && to == s.SplitId()
      ensures r == s.RetargetPhis(phis)
    {
      r := [];
      var p := 0;
      while p < |phis|
        invariant 0 <= p <= |phis| == |s.RetargetPhis(phis)| && r == s.RetargetPhis(phis)[..p]
      {
        var ins, q := [], 0;
        while q < |phis[p].ins|
          invariant 0 <= q <= |phis[p].ins| && ins == s.RetargetPhi(phis[p]).ins[..q]
        {
          var (pred, v) := phis[p].ins[q];
          ins := ins + [(if pred == from then to else pred, v)];
          q := q + 1;
        }
        assert ins == s.RetargetPhi(phis[p]).ins;
        r := r + [Phi(phis[p].dst, ins)];
        p := p + 1;
      }
    }

    /** Gives every register the callee defines a register of its own. */
    method NumberRegisters(callee: seq<SsaBlock>) returns (valMap: map<nat, nat>)
      modifies `nextReg
      ensures valMap == Renumber(DefsOf(callee), old(nextReg)) && nextReg == old(nextReg) + |DefsOf(callee)|
    {
      valMap := map[];
      ghost var start := nextReg;
      var j := 0;
      while j < |callee|
        invariant 0 <= j <= |callee|
        invariant valMap == Renumber(DefsOf(callee[..j]), start) && nextReg == start + |DefsOf(callee[..j])|
      {
        assert callee[..j+1][..j] == callee[..j];
        ghost var before := DefsOf(callee[..j]);
        valMap := NumberBlock(callee[j], valMap, before, start);
        assert DefsOf(callee[..j+1]) == before + PhiDefs(callee[j].phis) + InstDefs(callee[j].insts);
        j := j + 1;
      }
      assert callee[..j] == callee;
    }

    method NumberBlock(b: SsaBlock, sofar: map<nat, nat>, ghost before: seq<nat>,
        ghost start: nat) returns (valMap: map<nat, nat>)
      requires sofar == Renumber(before, start) && nextReg == start + |before|
      modifies `nextReg
      ensures var defs := before + PhiDefs(b.phis) + InstDefs(b.insts);
        valMap == Renumber(defs, start) && nextReg == start + |defs|
    {
      hide Renumber;
      valMap := sofar;
      ghost var defs := before;
      var p, q := 0, 0;
      while p < |b.phis|
        invariant 0 <= p <= |b.phis| && defs == before + PhiDefs(b.phis)[..p]
        invariant valMap == Renumber(defs, start) && nextReg == start + |defs|
      {
        Numbered(defs, b.phis[p].dst, start);
        defs := defs + [b.phis[p].dst];
        valMap := valMap[b.phis[p].dst := nextReg];
        nextReg := nextReg + 1;
        p := p + 1;
      }
      ghost var phiDefs := before + PhiDefs(b.phis);
      assert defs == phiDefs;
      while q < |b.insts|
        invariant 0 <= q <= |b.insts| && defs == phiDefs + InstDefs(b.insts[..q])
        invariant valMap == Renumber(defs, start) && nextReg == start + |defs|
      {
        assert b.insts[..q+1][..q] == b.insts[..q];
        if Dst(b.insts[q]).Some? {
          var r := Dst(b.insts[q]).value;
          Numbered(defs, r, start);
          defs := defs + [r];
          valMap := valMap[r := nextReg];
          nextReg := nextReg + 1;
        }
        q := q + 1;
      }
      assert b.insts[..q] == b.insts;
    }

    lemma Numbered(defs: seq<nat>, r: nat, start: nat)
      ensures Renumber(defs + [r], start) == Renumber(defs, start)[r := start + |defs|]
    { assert (defs + [r])[..|defs|] == defs; }

    /** Creates the blocks the callee's blocks are copied to. */
    method CreateCopies(callee: seq<SsaBlock>) returns (bbMap: map<nat, nat>)
      modifies `blocks, `nextBlock
      ensures nextBlock == old(nextBlock) + 2 * |callee| && blocks == old(blocks) + EmptyCopies(callee, old(nextBlock))
      ensures forall id :: id in bbMap <==> IndexOf(callee, id).Some?
      ensures UniqueSsaIds(callee) ==>
        forall j :: 0 <= j < |callee| ==> callee[j].id in bbMap && bbMap[callee[j].id] == old(nextBlock) + 1 + 2 * j
    {
      bbMap := map[];
      var j := 0;
      while j < |callee|
        invariant 0 <= j <= |callee| && nextBlock == old(nextBlock) + 2 * j
          && blocks == old(blocks) + EmptyCopies(callee[..j], old(nextBlock))
        invariant forall id :: id in bbMap <==> exists i :: 0 <= i < j && callee[i].id == id
        invariant UniqueSsaIds(callee) ==>
          forall i :: 0 <= i < j ==> callee[i].id in bbMap && bbMap[callee[i].id] == old(nextBlock) + 1 + 2 * i
      {
        var id := CreateBlock();
        bbMap := bbMap[callee[j].id := id];
        j := j + 1;
      }
      assert callee[..j] == callee;
    }

    /** Copies one block of the callee: registers, parameters and targets renamed, returns turned into jumps to the
        split block and noted. */
    method CopyOne(ghost s: Site, ghost j: nat, b: SsaBlock, id: nat, m: Maps) returns (copy: SsaBlock,
        rets: seq<(nat, Value)>)
      requires s.Valid() && j < |s.callee.blocks| && s.callee.blocks[j] == b && id == s.CopyId(j) && m.For(s)
      ensures copy == s.CopyBlock(j) && rets == s.ReturnsIn(j, |b.insts|)
    {
      hide s.Remap;
      hide m.Remap;
      hide m.For;
      hide s.CopyInst;
      hide s.CopyPhi;
      var phis := CopyPhis(s, b.phis, m);
      var insts, q := [], 0;
      rets := [];
      while q < |b.insts|
        invariant 0 <= q <= |b.insts| && insts == s.CopyInsts(b.insts)[..q] && rets == s.ReturnsIn(j, q)
      {
        var i := CopyInstruction(s, b.insts[q], m);
        insts := insts + [i];
        if b.insts[q].Ret? {
          if b.insts[q].val.Some? { RemapIs(s, m, b.insts[q].val.value); }
          rets := rets + [(id, if b.insts[q].val.Some? then m.Remap(b.insts[q].val.value) else ConstInt(0))];
        }
        q := q + 1;
      }
      copy := SsaBlock(id, phis, insts);
    }

    lemma RemapIs(s: Site, m: Maps, v: Value)
      requires s.Valid() && m.For(s)
      ensures m.Remap(v) == s.Remap(v)
    {}

    method CopyPhis(ghost s: Site, phis: seq<Phi>, m: Maps) returns (r: seq<Phi>)
      requires s.Valid() && m.For(s)
      ensures r == s.CopyPhis(phis)
    {
      r := [];
      var p := 0;
      while p < |phis|
        invariant 0 <= p <= |phis| && r == s.CopyPhis(phis)[..p]
      {
        var ins, q := [], 0;
        while q < |phis[p].ins|
          invariant 0 <= q <= |phis[p].ins| && ins == s.CopyPhi(phis[p]).ins[..q]
        {
          ins := ins + [(m.Target(phis[p].ins[q].0), m.Remap(phis[p].ins[q].1))];
          q := q + 1;
        }
        assert ins == s.CopyPhi(phis[p]).ins;
        r := r + [Phi(m.Dst(phis[p].dst), ins)];
        p := p + 1;
      }
    }

    lemma MapsAgree(s: Site, m: Maps)
      requires s.Valid() && m.For(s)
      ensures m.splitId == s.SplitId() && (forall v :: m.Remap(v) == s.Remap(v))
      ensures (forall d :: m.Dst(d) == s.RemapDst(d)) && forall id :: m.Target(id) == s.CopyOf(id)
    {}

    method CopyInstruction(ghost s: Site, i: Inst, m: Maps) returns (r: Inst)
      requires s.Valid() && m.For(s)
      ensures r == s.CopyInst(i)
    {
      MapsAgree(s, m);
      hide m.For;
      hide m.Remap;
      hide m.Dst;
      hide m.Target;
      hide s.Remap;
      hide s.RemapDst;
      hide s.CopyOf;
      match i
      case Ret(_) => r := Br(m.splitId);
      case Br(t) => r := Br(m.Target(t));
      case CondBr(c, t, f) => r := CondBr(m.Remap(c), m.Target(t), m.Target(f));
      case Alloca(_) => r := i;
      case Load(d, l) => r := Load(m.Dst(d), l);
      case Store(v, l) => r := Store(m.Remap(v), l);
      case Const(d, v) => r := Const(m.Dst(d), m.Remap(v));
      case Bin(op, d, x, y) => r := Bin(op, m.Dst(d), m.Remap(x), m.Remap(y));
      case Un(op, d, v) => r := Un(op, m.Dst(d), m.Remap(v));
      case Call(d, f, args) =>
        var copied, a := [], 0;
        while a < |args|
          invariant 0 <= a <= |args| && copied == s.RemapAll(args)[..a]
        {
          copied := copied + [m.Remap(args[a])];
          a := a + 1;
        }
        r := Inst.Call(if d.Some? then Some(m.Dst(d.value)) else None, f, copied);
      case Print(v) => r := Print(m.Remap(v));
    }

    /** Replaces every use of register `d` in the function. */
    method ReplaceResult(ghost s: Site, d: nat, final: Value)
      requires s.Valid() && s.Replaced() && d == s.Call().result.value && final == s.AllReturns()[0].1
      modifies `blocks
      ensures blocks == s.SubstBlocks(old(blocks))
    {
      var i := 0;
      while i < |blocks|
        invariant 0 <= i <= |blocks| == |old(blocks)|
        invariant forall j ::
          0 <= j < |blocks| ==> blocks[j] == if j < i then s.SubstBlock(old(blocks)[j]) else old(blocks)[j]
      {
        var phis := ReplaceInPhis(s, blocks[i].phis, d, final);
        var insts := ReplaceInInsts(s, blocks[i].insts, d, final);
        blocks := blocks[i := SsaBlock(blocks[i].id, phis, insts)];
        i := i + 1;
      }
    }

    method ReplaceInInsts(ghost s: Site, insts: seq<Inst>, d: nat, final: Value) returns (r: seq<Inst>)
      requires s.Valid() && s.Replaced() && d == s.Call().result.value && final == s.AllReturns()[0].1
      ensures r == s.SubstInsts(insts)
    {
      r := [];
      var q := 0;
      while q < |insts|
        invariant 0 <= q <= |insts| && r == s.SubstInsts(insts)[..q]
      {
        var inst := ReplaceIn(s, insts[q], d, final);
        r := r + [inst];
        q := q + 1;
      }
    }

    method ReplaceInPhis(ghost s: Site, phis: seq<Phi>, d: nat, final: Value) returns (r: seq<Phi>)
      requires s.Valid() && s.Replaced() && d == s.Call().result.value && final == s.AllReturns()[0].1
      ensures r == s.SubstPhis(phis)
    {
      r := [];
      var p := 0;
      while p < |phis|
        invariant 0 <= p <= |phis| && r == s.SubstPhis(phis)[..p]
      {
        var ins, q := [], 0;
        while q < |phis[p].ins|
          invariant 0 <= q <= |phis[p].ins| && ins == s.SubstPhi(phis[p]).ins[..q]
        {
          ins := ins + [(phis[p].ins[q].0, Put(phis[p].ins[q].1, d, final))];
          q := q + 1;
        }
        assert ins == s.SubstPhi(phis[p]).ins;
        r := r + [Phi(phis[p].dst, ins)];
        p := p + 1;
      }
    }

    method ReplaceIn(ghost s: Site, i: Inst, d: nat, final: Value) returns (r: Inst)
      requires s.Valid() && s.Replaced() && d == s.Call().result.value && final == s.AllReturns()[0].1
      ensures r == s.SubstInst(i)
    {
      match i
      case Store(v, l) => r := Store(Put(v, d, final), l);
      case Const(e, v) => r := Const(e, Put(v, d, final));
      case Bin(op, e, x, y) => r := Bin(op, e, Put(x, d, final), Put(y, d, final));
      case Un(op, e, v) => r := Un(op, e, Put(v, d, final));
      case Call(e, f, args) =>
        var changed, a := [], 0;
        while a < |args|
          invariant 0 <= a <= |args| && changed == s.SubstAll(args)[..a]
        {
          changed := changed + [Put(args[a], d, final)];
          a := a + 1;
        }
        r := Inst.Call(e, f, changed);
      case Print(v) => r := Print(Put(v, d, final));
      case CondBr(c, t, f) => r := CondBr(Put(c, d, final), t, f);
      case Ret(v) => r := Ret(if v.Some? then Some(Put(v.value, d, final)) else None);
      case _ => r := i;
    }

    /** Inlines the call at instruction `k` of block `bi`. */
    method InlineCallSite(bi: nat, k: nat, callee: Fn)
      requires var s := Site(Now(), bi, k, callee); s.Valid() && callee.blocks != [] && UniqueSsaIds(callee.blocks)
      modifies this
      ensures var s := Site(old(Now()), bi, k, callee); Now() == s.Inlined()
    {
      ghost var s := Site(Now(), bi, k, callee);
      var call, n := blocks[bi].insts[k], |blocks|;
      var splitId := SplitAt(s, bi, k);
      var rets := CopyCallee(s, bi, call, callee, splitId);
      if call.result.Some? && |rets| > 1 {
        blocks := blocks[n := SsaBlock(splitId, [Phi(call.result.value, rets)], blocks[n].insts)];
      }
      Assembled(s, blocks);
      if call.result.Some? && |rets| == 1 {
        ReplaceResult(s, call.result.value, rets[0].1);
      } else {
        NothingReplaced(s, blocks);
      }
    }

    /** Ends the block of the call with a jump to the copied callee, which is appended. */
    method CopyCallee(ghost s: Site, bi: nat, call: Inst, callee: Fn, splitId: nat) returns (rets: seq<(nat, Value)>)
      requires s.Valid() && s.callee.blocks != [] && UniqueSsaIds(s.callee.blocks) && call == s.Call()
        && splitId == s.SplitId() && bi == s.bi && callee == s.callee
      requires |blocks| == |s.caller.blocks| + 1 && nextReg == s.caller.nextReg && nextBlock == s.caller.nextBlock + 2
      requires name == s.caller.name && params == s.caller.params
      modifies `blocks, `nextReg, `nextBlock
      ensures rets == s.AllReturns() && nextReg == s.Inlined().nextReg && nextBlock == s.Inlined().nextBlock
      ensures blocks == old(blocks)[bi := SsaBlock(old(blocks)[bi].id, old(blocks)[bi].phis,
        old(blocks)[bi].insts + [Br(s.CopyId(0))])] + s.Copies()
    {
      hide Maps.For;
      hide s.Renaming;
      hide DefsOf;
      hide s.CopyBlock;
      hide s.CopyId;
      hide s.CopyOf;
      hide s.AllReturns;
      hide s.SplitId;
      var n := |blocks|;
      var m := MakeMaps(s, call, callee, splitId);
      blocks := blocks[bi := SsaBlock(blocks[bi].id, blocks[bi].phis,
        blocks[bi].insts + [Br(m.Target(callee.blocks[0].id))])];
      ghost var front := blocks[..n];
      rets := FillCopies(s, m, callee, n);
      assert blocks == front + s.Copies();
    }

    method MakeMaps(ghost s: Site, call: Inst, callee: Fn, splitId: nat) returns (m: Maps)
      requires s.Valid() && s.callee.blocks != [] && UniqueSsaIds(s.callee.blocks) && call == s.Call()
        && splitId == s.SplitId() && callee == s.callee
      requires nextReg == s.caller.nextReg && nextBlock == s.caller.nextBlock + 2 && name == s.caller.name
        && params == s.caller.params
      modifies `blocks, `nextReg, `nextBlock
      ensures m.For(s) && m.Target(callee.blocks[0].id) == s.CopyId(0)
      ensures nextReg == s.Inlined().nextReg && nextBlock == s.Inlined().nextBlock
      ensures |blocks| == |old(blocks)| + |callee.blocks| && blocks[..|old(blocks)|] == old(blocks)
      ensures forall x :: 0 <= x < |callee.blocks| ==> blocks[|old(blocks)| + x].id == s.CopyId(x)
    {
      InlinedNumbers(s);
      hide DefsOf;
      hide Renumber;
      hide s.Inlined;
      hide m.For;
      hide m.Target;
      var valMap := NumberRegisters(callee.blocks);
      var bbMap := CreateCopies(callee.blocks);
      m := Maps(valMap, bbMap, callee.params, call.args, splitId);
      MapsRight(s, m);
    }

    lemma InlinedNumbers(s: Site)
      requires s.Valid() && s.callee.blocks != []
      ensures s.Inlined().nextReg == s.caller.nextReg + |DefsOf(s.callee.blocks)|
      ensures s.Inlined().nextBlock == s.caller.nextBlock + 2 + 2 * |s.callee.blocks|
      ensures s.Renaming() == Renumber(DefsOf(s.callee.blocks), s.caller.nextReg)
    {}

    /** Copies the code of every block of the callee into the block made for it. */
    method FillCopies(ghost s: Site, m: Maps, callee: Fn, n: nat) returns (rets: seq<(nat, Value)>)
      requires s.Valid() && callee == s.callee && m.For(s) && |blocks| == n + |callee.blocks|
      requires forall x :: 0 <= x < |callee.blocks| ==> blocks[n + x].id == s.CopyId(x)
      modifies `blocks
      ensures rets == s.AllReturns() && |blocks| == n + |callee.blocks| && blocks[..n] == old(blocks[..n])
        && blocks[n..] == s.Copies()
    {
      hide m.For;
      hide s.CopyBlock;
      hide s.CopyId;
      hide s.ReturnsIn;
      rets := [];
      var j := 0;
      while j < |callee.blocks|
        invariant 0 <= j <= |callee.blocks| && |blocks| == n + |callee.blocks| && blocks[..n] == old(blocks[..n])
          && rets == Noted(s.Returns(j))
        invariant forall x :: 0 <= x < |callee.blocks| ==> blocks[n + x].id == s.CopyId(x)
        invariant forall x :: 0 <= x < j ==> blocks[n + x] == s.CopyBlock(x)
      {
        var copy, more := CopyOne(s, j, callee.blocks[j], blocks[n + j].id, m);
        CopyKeepsId(s, j);
        blocks := blocks[n + j := copy];
        NotedMore(s.Returns(j), more);
        rets := Noted(rets + more);
        j := j + 1;
      }
    }

    lemma NotedMore(a: seq<(nat, Value)>, b: seq<(nat, Value)>)
      ensures Noted(Noted(a) + b) == Noted(a + b)
    {}

    lemma CopyKeepsId(s: Site, j: nat)
      requires s.Valid() && j < |s.callee.blocks|
      ensures s.CopyBlock(j).id == s.CopyId(j)
    {}

    lemma Assembled(s: Site, bs: seq<SsaBlock>)
      requires s.Valid() && s.callee.blocks != [] && |bs| == |s.caller.blocks| + 1 + |s.callee.blocks|
      requires forall i :: 0 <= i < |s.caller.blocks| ==> bs[i] == s.OldBlock(i)
      requires bs[|s.caller.blocks|] == s.SplitBlock() && bs[|s.caller.blocks| + 1..] == s.Copies()
      ensures bs == s.OldBlocks() + [s.SplitBlock()] + s.Copies()
    {
      hide s.OldBlock;
      hide s.SplitBlock;
      var all, n := s.OldBlocks() + [s.SplitBlock()] + s.Copies(), |s.caller.blocks|;
      forall x | 0 <= x < |bs| ensures bs[x] == all[x] {
        if x > n { assert bs[x] == bs[n + 1..][x - n - 1]; }
      }
    }

    lemma MapsRight(s: Site, m: Maps)
      requires s.Valid() && s.callee.blocks != [] && UniqueSsaIds(s.callee.blocks) && m.regs == s.Renaming()
        && m.params == s.callee.params
      requires m.args == s.Call().args && m.splitId == s.SplitId() && forall id ::
        id in m.blocks <==> IndexOf(s.callee.blocks, id).Some?
      requires forall j ::
        0 <= j < |s.callee.blocks| ==>
          s.callee.blocks[j].id in m.blocks && m.blocks[s.callee.blocks[j].id] == s.CopyId(j)
      ensures m.For(s) && m.Target(s.callee.blocks[0].id) == s.CopyId(0)
    {
      forall id ensures m.Target(id) == s.CopyOf(id) {
        var j := IndexOf(s.callee.blocks, id);
        assert j.Some? ==> s.callee.blocks[j.value].id == id;
      }
    }

    lemma NothingReplaced(s: Site, bs: seq<SsaBlock>)
      requires s.Valid() && !s.Replaced()
      ensures s.SubstBlocks(bs) == bs
    {
      forall vs: seq<Value> ensures s.SubstAll(vs) == vs {}
      forall i: Inst ensures s.SubstInst(i) == i {}
      forall p: Phi ensures s.SubstPhi(p) == p {}
      forall b: SsaBlock ensures s.SubstBlock(b) == b {
        assert s.SubstPhis(b.phis) == b.phis;
        assert s.SubstInsts(b.insts) == b.insts;
      }
    }
  }

  /** A value with register `d` replaced. */
  function Put(v: Value, d: nat, final: Value): Value { if v == Reg(d) then final else v }

  /** The tables the copying looks things up in. */
  datatype Maps = Maps(regs: map<nat, nat>, blocks: map<nat, nat>, params: nat, args: seq<Value>, splitId: nat) {
    ghost predicate For(s: Site)
      requires s.Valid()
    {
      && regs == s.Renaming() && params == s.callee.params && args == s.Call().args && splitId == s.SplitId()
      && forall id :: Target(id) == s.CopyOf(id)
    }

    function Target(id: nat): nat { if id in blocks then blocks[id] else splitId }

    function Dst(r: nat): nat { if r in regs then regs[r] else r }

    function Remap(v: Value): Value {
      match v
      case Param(p) => if p < params then (if p < |args| then args[p] else ConstInt(0)) else v
      case Reg(r) => if r in regs then Reg(regs[r]) else v
      case _ => v
    }
  }

  function EmptyCopies(callee: seq<SsaBlock>, next: nat): (r: seq<SsaBlock>)
    ensures |r| == |callee| && forall j :: 0 <= j < |r| ==> r[j] == SsaBlock(next + 1 + 2 * j, [], [])
  { seq(|callee|, j requires 0 <= j < |callee| => SsaBlock(next + 1 + 2 * j, [], [])) }
}
