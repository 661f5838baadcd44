/** What every verb does around mlx5_cmd_exec. */
module VerbSupport {
  import opened Words
  import opened Memory
  import opened CmdProtocol
  import opened CmdQueue
  import ObjectTable

  /** A zeroed buffer, such as `uint8_t buf[n] = {0}` or fresh descriptor memory. */
  method ZeroedBytes(n: nat) returns (a: array<u8>)
    ensures fresh(a) && a[..] == Zeros(n)
  {
    a := new u8[n](i => 0);
  }

  /** One command with a zeroed output buffer of `outLen` bytes. */
  method Request(ctx: CmdContext, opcode: u16, opMod: u16, input: seq<u8>, outLen: u32, sched: Schedule)
    returns (acked: bool, out: seq<u8>)
    requires ctx.Valid() && ctx.drv.pc == Ready && outLen <= MAILBOX_SIZE - 8
    modifies ctx, ctx.ring, ctx.pool
    ensures ctx.Sent(old(ctx.View()), Call(opcode, opMod, input, outLen), sched)
    ensures acked <==> ObjectTable.Succeeded(ctx.View())
    ensures acked ==> out == ObjectTable.LastOutcome(ctx.View()).output && |out| == outLen
  {
    hide ExecuteCall;
    var outBuf := ZeroedBytes(outLen);
    var r, fwStatus := ctx.Exec(opcode, opMod, input, outBuf, outLen, sched);
    acked := r == KernSuccess;
    out := outBuf[..];
    assert acked ==> out == ObjectTable.LastOutcome(ctx.View()).output;
  }

  /** One destroy command: the handle, big-endian, in the first four input bytes. */
  method DestroyRequest(ctx: CmdContext, opcode: u16, opMod: u16, handle: u32, sched: Schedule) returns (acked: bool)
    requires ctx.Valid() && ctx.drv.pc == Ready
    modifies ctx, ctx.ring, ctx.pool
    ensures ctx.Sent(old(ctx.View()), Call(opcode, opMod, Be32Bytes(handle), 16), sched)
    ensures acked <==> ObjectTable.Succeeded(ctx.View())
  {
    hide ExecuteCall, Be32Bytes;
    var inBuf := ZeroedBytes(16);
    Store(inBuf, 0, Be32Bytes(handle));
    assert inBuf[..4] == Be32Bytes(handle);
    var out;
    acked, out := Request(ctx, opcode, opMod, inBuf[..4], 16, sched);
  }
}
