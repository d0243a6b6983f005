/** The TCP ACK suppressor as the driver runs it: an array of 32 slots, each call updating fields in place.
    Every method is proved to do to the table what TcpAckSpec says. */
module TcpAck {
  import opened Integers
  import opened Wrappers
  import opened TcpAckSpec

  lemma AgeOne(t: Table, i: nat, now: Jiffies, timeout: Jiffies)
    requires 0 < i <= TCP_ACK_NUM
    ensures var slot := t.slots[i - 1];
      AgeBelow(t, i, now, timeout) ==
      AgeBelow(if Stale(slot, now, timeout)
               then t.(slots := t.slots[i - 1 := slot.(busy := false)], freeIndex := i - 1, maxNum := t.maxNum - 1)
               else t, i - 1, now, timeout)
  {
  }

  lemma AgeNone(t: Table, now: Jiffies, timeout: Jiffies)
    ensures AgeBelow(t, 0, now, timeout) == t
  {
  }

  class AckManage {
    const ackInfo: array<Slot>
    var maxNum: int
    var freeIndex: int
    var lastTime: Jiffies
    var timeout: Jiffies
    var enable: bool

    ghost predicate Valid()
      reads this
    {
      ackInfo.Length == TCP_ACK_NUM && freeIndex < TCP_ACK_NUM
    }

    ghost function View(): Table
      requires Valid()
      reads this, ackInfo
    {
      Table(ackInfo[..], maxNum, freeIndex, lastTime)
    }

    /** tcp_ack_init. */
    constructor (now: Jiffies, timeout: Jiffies)
      ensures Valid() && enable && this.timeout == timeout && fresh(ackInfo)
      ensures View() == Table(seq(TCP_ACK_NUM, _ => EMPTY.(lastTime := now)), 0, 0, now)
    {
      ackInfo := new Slot[TCP_ACK_NUM](_ => EMPTY.(lastTime := now));
      maxNum, freeIndex, lastTime := 0, 0, now;
      this.timeout := timeout;
      enable := true;
    }

    method AckMatch(flow: Flow) returns (index: int)
      requires Valid()
      ensures index == Match(View().slots, flow)
    {
      index := -1;
      var i := 0;
      while index < 0 && i < TCP_ACK_NUM
        invariant i <= TCP_ACK_NUM
        invariant if index < 0 then Match(View().slots, flow) == MatchFrom(View().slots, flow, i)
                  else Match(View().slots, flow) == index
      {
        if ackInfo[i].busy && ackInfo[i].flow == flow { index := i; }
        i := i + 1;
      }
    }

    method AckUpdate(now: Jiffies)
      requires Valid()
      modifies this`maxNum, this`freeIndex, this`lastTime, ackInfo
      ensures Valid() && View() == Update(old(View()), now, timeout)
    {
      hide TimeAfter, AgeBelow;
      if TimeAfter(now, (lastTime + timeout) % TWO64) {
        lastTime := now;
        ghost var t := View();
        for i := TCP_ACK_NUM downto 0
          invariant Valid() && lastTime == now
          invariant AgeBelow(View(), i, now, timeout) == AgeBelow(t, TCP_ACK_NUM, now, timeout)
        {
          ghost var was := View();
          AgeOne(was, i + 1, now, timeout);
          if ackInfo[i].busy && TimeAfter(now, (ackInfo[i].lastTime + timeout) % TWO64) {
            freeIndex := i;
            maxNum := maxNum - 1;
            ackInfo[i] := ackInfo[i].(busy := false);
            assert View() == was.(slots := was.slots[i := was.slots[i].(busy := false)],
                                      freeIndex := i, maxNum := was.maxNum - 1);
          }
        }
        AgeNone(View(), now, timeout);
      }
    }

    method AllocIndex() returns (index: int)
      requires Valid()
      modifies this`maxNum, this`freeIndex
      ensures Valid() && (View(), index) == Alloc(old(View()))
    {
      if maxNum == TCP_ACK_NUM { return -1; }
      if freeIndex >= 0 {
        index := freeIndex;
        freeIndex := -1;
        maxNum := maxNum + 1;
        return;
      }
      index := -1;
      var i := 0;
      while index < 0 && i < TCP_ACK_NUM
        invariant i <= TCP_ACK_NUM && Valid()
        invariant index < 0 ==> View() == old(View()) && IdleFrom(View().slots, 0) == IdleFrom(View().slots, i)
        invariant index >= 0 ==> index == IdleFrom(View().slots, 0) &&
                                 View() == old(View()).(freeIndex := -1, maxNum := old(maxNum) + 1)
      {
        if !ackInfo[i].busy {
          freeIndex := -1;
          maxNum := maxNum + 1;
          index := i;
        }
        i := i + 1;
      }
    }

    /** tcp_ack_handle_new: ret is 1 when the message has been kept or freed here. */
    method HandleNew(index: nat, msg: Msg, now: Jiffies) returns (ret: int, drop: Option<Msg>)
      requires Valid() && index < TCP_ACK_NUM
      modifies ackInfo
      ensures var v := Handle(old(ackInfo[index]), msg, now);
        ackInfo[..] == old(ackInfo[..])[index := v.slot] && ret == (if v.pass then 0 else 1) && drop == v.freed
    {
      hide U32Before, Wire;
      var quickAck := false;
      ret, drop := 0, None;
      ackInfo[index] := ackInfo[index].(lastTime := now);
      if U32Before(ackInfo[index].ackSeq, Wire(msg)) {
        if ackInfo[index].held.Some? {
          drop := ackInfo[index].held;
          ackInfo[index] := ackInfo[index].(held := None);
        }
        if ackInfo[index].psh && !U32Before(Wire(msg), ackInfo[index].pshSeq) {
          ackInfo[index] := ackInfo[index].(psh := false);
          quickAck := true;
        } else {
          ackInfo[index] := ackInfo[index].(dropCnt := ackInfo[index].dropCnt + 1);
        }
        ackInfo[index] := ackInfo[index].(ackSeq := Wire(msg));
        if quickAck || (ackInfo[index].inSend.None? && ackInfo[index].dropCnt >= TCP_ACK_DROP_CNT) {
          ackInfo[index] := ackInfo[index].(dropCnt := 0, inSend := Some(msg), timer := false);
        } else {
          ret := 1;
          ackInfo[index] := ackInfo[index].(held := Some(msg));
          if !ackInfo[index].timer {
            ackInfo[index] := ackInfo[index].(timer := true);
          }
        }
      } else {
        drop := Some(msg);
        ret := 1;
      }
    }

    /** filter_send_tcp_ack; 0 lets the message through, 1 means the filter has it. */
    method FilterSend(msg: Msg, kind: nat, winScale: int, now: Jiffies) returns (ret: int, drop: Option<Msg>)
      requires Valid()
      modifies this`maxNum, this`freeIndex, this`lastTime, ackInfo
      ensures Valid()
      ensures var r := Filter(Update(old(View()), now, timeout), msg, kind, winScale, enable, now);
        View() == r.table && ret == (if r.pass then 0 else 1) && drop == r.freed
    {
      hide Handle, Update, U32Before, Opened, Match, Alloc, Wire;
      AckUpdate(now);
      ghost var t := View();
      ret, drop := 0, None;
      if kind == 0 && winScale == 0 { return; }
      var index := AckMatch(msg.flow);
      if index >= 0 {
        if winScale != 0 && ackInfo[index].winScale != winScale {
          ackInfo[index] := ackInfo[index].(winScale := winScale);
        }
        assert ackInfo[..] == t.slots[index := Rescaled(t.slots[index], winScale)];
        if kind > 0 && enable {
          ret, drop := HandleNew(index, msg, now);
        }
      } else {
        index := AllocIndex();
        if index >= 0 {
          Open(index, msg, winScale, now);
        }
      }
    }

    method Open(index: nat, msg: Msg, winScale: int, now: Jiffies)
      requires Valid() && index < TCP_ACK_NUM
      modifies ackInfo
      ensures ackInfo[..] == old(ackInfo[..])[index := Opened(old(ackInfo[index]), msg, winScale, now)]
    {
      ackInfo[index] := ackInfo[index].(busy := true, psh := false, lastTime := now);
      ackInfo[index] := ackInfo[index].(dropCnt := TCP_ACK_DROP_CNT, winScale := if winScale != 0 then winScale else 1);
      ackInfo[index] := ackInfo[index].(flow := msg.flow, ackSeq := Wire(msg));
    }

    /** filter_rx_tcp_ack for a received segment with ACK and PSH. */
    method FilterRx(flow: Flow, end: U32)
      requires Valid()
      modifies ackInfo
      ensures View() == if enable then Receive(old(View()), flow, end) else old(View())
    {
      if !enable { return; }
      var index := AckMatch(flow);
      if index >= 0 {
        ackInfo[index] := ackInfo[index].(psh := true);
        ackInfo[index] := ackInfo[index].(pshSeq := end);
      }
    }

    /** tcp_ack_timeout: out is the message handed to the transmit path. */
    method AckTimeout(index: nat) returns (out: Option<Msg>)
      requires Valid() && index < TCP_ACK_NUM
      modifies ackInfo
      ensures (ackInfo[index], out) == TimedOut(old(ackInfo[index]))
      ensures ackInfo[..] == old(ackInfo[..])[index := ackInfo[index]]
    {
      ackInfo[index] := ackInfo[index].(timer := false);
      var msg := ackInfo[index].held;
      out := None;
      if ackInfo[index].busy && msg.Some? && ackInfo[index].inSend.None? {
        ackInfo[index] := ackInfo[index].(held := None);
        ackInfo[index] := ackInfo[index].(dropCnt := 0);
        ackInfo[index] := ackInfo[index].(inSend := msg);
        out := msg;
      }
    }

    /** move_tcpack_msg. */
    method MoveMsg(msg: Msg)
      requires Valid()
      modifies ackInfo
      ensures View() == if enable then old(View()).(slots := Moved(old(View()).slots, msg)) else old(View())
    {
      if !enable { return; }
      ghost var slots := View().slots;
      for i := 0 to TCP_ACK_NUM
        invariant forall k :: 0 <= k < i ==> ackInfo[k] == Moved(slots, msg)[k]
        invariant forall k :: i <= k < TCP_ACK_NUM ==> ackInfo[k] == slots[k]
      {
        if ackInfo[i].busy && ackInfo[i].inSend == Some(msg) {
          ackInfo[i] := ackInfo[i].(inSend := None);
        }
      }
    }
  }
}
