/** The life of one connection object: its `stats_`, its outstanding operations and
    its touch time, and what each completion handler of front_conn.cpp does to them.
    Each outstanding operation holds one strong reference to the object. */
module Lifecycle {

  datatype Stats = Working | Pending | Error

  datatype Life = Life(stats: Stats, rOps: nat, wOps: nat, touch: int)

  /** How a read handler ends: it answers and reads the next head, it asks for more
      body bytes, or it reports a read error. */
  datatype ReadEnd = Answered | NeedsBody | ReadFailed

  /** How a write handler ends: nothing more to do (written, or cancelled), the rest
      of the reply is written, or a write error is reported. */
  datatype WriteEnd = Written | Continued | WriteFailed

  /** do_read_head and do_read_body: refuse unless working, else touch and issue. */
  function IssueRead(l: Life, now: int): Life {
    if l.stats.Working? then l.(rOps := l.rOps + 1, touch := now) else l
  }

  function IssueWrite(l: Life, now: int): Life {
    if l.stats.Working? then l.(wOps := l.wOps + 1, touch := now) else l
  }

  function StartLife(l: Life, now: int): Life {
    IssueRead(l.(stats := Working), now)
  }

  /** A read handler, its own operation no longer counted. */
  function FinishRead(d: Life, e: ReadEnd, now: int): Life {
    match e
    case Answered => StartLife(IssueWrite(d, now), now)
    case NeedsBody => IssueRead(d, now)
    case ReadFailed => d.(stats := Error)
  }

  function AfterRead(l: Life, e: ReadEnd, now: int): Life
    requires l.rOps >= 1
  {
    FinishRead(l.(rOps := l.rOps - 1), e, now)
  }

  function AfterWrite(l: Life, e: WriteEnd, now: int): Life
    requires l.wOps >= 1
  {
    var d := l.(wOps := l.wOps - 1);
    match e
    case Written => d
    case Continued => IssueWrite(d, now)
    case WriteFailed => d.(stats := Error)
  }
}
