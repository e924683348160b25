/** The event loop: whatever the radio, the timers, the caller and the device make it do, the client is where the state
    machine is, and the invariant holds of it. */
module Driver {
  import opened Bytes
  import opened Reassembly
  import opened Session
  import opened Invariants
  import opened Preservation
  import opened Client

  method Perform(c: TuyaBleClient, event: Event)
    requires Inv(c.cfg, c.View())
    modifies c, c.reassembler
    ensures c.View() == Step(c.cfg, old(c.View()), event) && Inv(c.cfg, c.View())
    ensures c.reassembler == old(c.reassembler) || fresh(c.reassembler)
  {
    StepInv(c.cfg, c.View(), event);
    match event {
      case Begins => c.Begin();
      case Interrupts(interrupt) => c.Cancel(interrupt);
      case Resumes(io, vector) => c.ResumeRead(io, vector);
      case Notifies(chunk, clock, clockReply) =>
        var _ := c.OnNotification(chunk, clock, clockReply);
      case ReplyRuns(task, io, vector) => c.RunReplyTask(task, io, vector);
    }
  }

  /** Every run of the program is the run of the state machine, and so has all that is proved of it. */
  method Drive(cfg: Config, events: seq<Event>) returns (c: TuyaBleClient)
    ensures fresh(c) && fresh(c.reassembler) && c.cfg == cfg
    ensures c.View() == Run(cfg, INITIAL, events) && Inv(cfg, c.View())
  {
    c := new TuyaBleClient(cfg);
    InitialInv(cfg);
    for i := 0 to |events|
      invariant fresh(c) && fresh(c.reassembler) && c.cfg == cfg && Inv(cfg, c.View())
      invariant Run(cfg, c.View(), events[i..]) == Run(cfg, INITIAL, events)
    {
      assert events[i..][1..] == events[i + 1..];
      Perform(c, events[i]);
    }
  }
}
