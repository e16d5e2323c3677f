/** The controller object: the methods that update its fields without yielding to the loop. */
module TradingController {
  import opened Options
  import opened TradingLoop
  import opened BreakerResets

  // ---- the action code ----

  lemma EncodeThenDecode(n: nat, pair: nat, offset: nat)
    requires pair < n && offset < 3
    ensures 1 <= Encode(pair, offset) <= 3 * n
    ensures PairOf(Encode(pair, offset)) == pair && OffsetOf(Encode(pair, offset)) == offset
  {
    assert (pair * 3 + offset) / 3 == pair;
  }

  lemma DecodeThenEncode(n: nat, action: nat)
    requires 1 <= action <= 3 * n
    ensures PairOf(action) < n && OffsetOf(action) < 3
    ensures Encode(PairOf(action), OffsetOf(action)) == action
    ensures Closes(action) <==> action % 3 == 0
  {
    ClosesIff(PairOf(action), OffsetOf(action));
  }

  lemma ClosesIff(pair: nat, offset: nat)
    requires offset < 3
    ensures Encode(pair, offset) % 3 == 0 <==> offset == 2
  {
    assert Encode(pair, offset) == pair * 3 + (offset + 1);
  }

  /** The open trades with their lot sizes, once the broker has answered a close: it may fail, close another lot
  size than the trade's, or close the trade. */
  function AfterClose(trades: map<Ticket, real>, ticket: Ticket, closed: Option<real>): map<Ticket, real> {
    if ticket !in trades || closed.None? then trades
    else if trades[ticket] == closed.value then trades - {ticket}
    else trades[ticket := closed.value]
  }

  class Account {
    var balance: real
    var currentTrade: map<Ticket, real>

    /** What goes wrong is swallowed, and the trade stays in the table. Otherwise the ticket goes exactly when its
    whole lot size was closed; no other trade is touched. */
    method CloseOrder(ticket: Ticket, closed: Option<real>)
      modifies this`currentTrade
      ensures currentTrade == AfterClose(old(currentTrade), ticket, closed)
      ensures ticket in currentTrade <==> ticket in old(currentTrade) && closed != Some(old(currentTrade)[ticket])
      ensures ticket in currentTrade ==>
        currentTrade[ticket] == if closed.Some? then closed.value else old(currentTrade)[ticket]
      ensures forall t :: t != ticket ==>
        (t in currentTrade <==> t in old(currentTrade))
        && (t in currentTrade ==> currentTrade[t] == old(currentTrade)[t])
    {
      if ticket in currentTrade && closed.Some? {
        if currentTrade[ticket] == closed.value {
          currentTrade := currentTrade - {ticket};
        } else {
          currentTrade := currentTrade[ticket := closed.value];
        }
      }
    }
  }

  class CircuitBreaker {
    var hourlyPnl: real
    var dailyPnl: real
    var hourlyStartBalance: real
    var dailyStartBalance: real

    method ResetDaily(balance: real)
      modifies this`dailyPnl, this`dailyStartBalance
      ensures dailyPnl == 0.0 && dailyStartBalance == balance
    {
      dailyPnl, dailyStartBalance := 0.0, balance;
    }

    method ResetHourly(balance: real)
      modifies this`hourlyPnl, this`hourlyStartBalance
      ensures hourlyPnl == 0.0 && hourlyStartBalance == balance
    {
      hourlyPnl, hourlyStartBalance := 0.0, balance;
    }
  }

  /** The clock face as the controller reads it. */
  function HourOf(now: int): int { now % DAY / HOUR }

  function MinuteOf(now: int): int { now % HOUR / MINUTE }

  lemma ClockFace(now: int)
    ensures MinuteOf(now) < 5 <==> now % HOUR < WIDTH
    ensures HourOf(now) == 0 && MinuteOf(now) < 5 <==> now % DAY < WIDTH
  {
    assert now % DAY == now % DAY / HOUR * HOUR + now % DAY % HOUR;
    assert now % DAY % HOUR == now % HOUR;
  }

  lemma WholeDays(span: int)
    ensures span / DAY >= 1 <==> span >= DAY
  {
  }

  class Controller {
    const account: Account
    const breaker: CircuitBreaker?
    const connectors: nat
    const actionSize: nat
    var isRunning: bool
    var tradingEnabled: bool
    var lastDailyReset: Option<int>
    var lastHourlyReset: Option<int>

    constructor (account: Account, breaker: CircuitBreaker?, connectors: nat, actionSize: nat, tradingEnabled: bool)
      ensures this.account == account && this.breaker == breaker
      ensures this.connectors == connectors && this.actionSize == actionSize
      ensures !isRunning && this.tradingEnabled == tradingEnabled
      ensures lastDailyReset == None && lastHourlyReset == None
    {
      this.account, this.breaker, this.connectors, this.actionSize := account, breaker, connectors, actionSize;
      this.tradingEnabled := tradingEnabled;
      isRunning, lastDailyReset, lastHourlyReset := false, None, None;
    }

    /** The kill switch's callback, `broker` being the lot size that the broker closes of each ticket, if any. What
    stays open is what was not closed whole: the same end as `TradingRaces.HandlerAlone`. */
    method HandleKillSwitch(broker: Ticket -> Option<real>)
      modifies this`isRunning, this`tradingEnabled, account`currentTrade
      ensures !isRunning && !tradingEnabled
      ensures forall t :: t in account.currentTrade <==>
        t in old(account.currentTrade) && broker(t) != Some(old(account.currentTrade)[t])
    {
      isRunning := false;
      tradingEnabled := false;
      var todo := account.currentTrade.Keys;
      ghost var before := account.currentTrade;
      while todo != {}
        invariant !isRunning && !tradingEnabled
        invariant todo <= before.Keys
        invariant forall t :: t in todo ==> t in account.currentTrade && account.currentTrade[t] == before[t]
        invariant forall t :: t !in todo ==>
          (t in account.currentTrade <==> t in before && broker(t) != Some(before[t]))
        decreases todo
      {
        var ticket :| ticket in todo;
        account.CloseOrder(ticket, broker(ticket));
        todo := todo - {ticket};
      }
    }

    method CheckAndResetCircuitBreaker(now: int)
      modifies this`lastDailyReset, this`lastHourlyReset, breaker
      ensures breaker != null ==> lastDailyReset == Mark(old(lastDailyReset), now, DAY, WIDTH)
      ensures breaker != null ==> lastHourlyReset == Mark(old(lastHourlyReset), now, HOUR, WIDTH)
      ensures breaker == null ==> lastDailyReset == old(lastDailyReset) && lastHourlyReset == old(lastHourlyReset)
      ensures breaker != null ==>
        if lastDailyReset != old(lastDailyReset)
        then breaker.dailyPnl == 0.0 && breaker.dailyStartBalance == account.balance
        else breaker.dailyPnl == old(breaker.dailyPnl) && breaker.dailyStartBalance == old(breaker.dailyStartBalance)
      ensures breaker != null ==>
        if lastHourlyReset != old(lastHourlyReset)
        then breaker.hourlyPnl == 0.0 && breaker.hourlyStartBalance == account.balance
        else
          && breaker.hourlyPnl == old(breaker.hourlyPnl)
          && breaker.hourlyStartBalance == old(breaker.hourlyStartBalance)
    {
      if breaker != null {
        ClockFace(now);
        if lastDailyReset.Some? { WholeDays(now - lastDailyReset.value); }
        if lastDailyReset.None? || (now - lastDailyReset.value) / DAY >= 1 {
          if HourOf(now) == 0 && MinuteOf(now) < 5 {
            breaker.ResetDaily(account.balance);
            lastDailyReset := Some(now);
          }
        }
        if lastHourlyReset.None? || now - lastHourlyReset.value >= 3600 * SECOND {
          if MinuteOf(now) < 5 {
            breaker.ResetHourly(account.balance);
            lastHourlyReset := Some(now);
          }
        }
      }
    }

    /** A 0/1 mask over the actions: HOLD is never masked, and with connectors only CLOSE can be, exactly
    when nothing is open. */
    method BuildActionMask() returns (mask: array<int>)
      requires connectors == 0 ==> actionSize > 0
      ensures mask.Length == if connectors == 0 then actionSize else connectors * 3 + 1
      ensures forall a :: 0 <= a < mask.Length ==>
                (mask[a] == 0 || mask[a] == 1)
                && (mask[a] == 0 <==> if connectors == 0 then a != 0
                                      else a > 0 && a % 3 == 0 && account.currentTrade == map[])
    {
      if connectors == 0 {
        mask := new int[actionSize](_ => 0);
        mask[0] := 1;
        return;
      }
      mask := new int[connectors * 3 + 1](_ => 1);
      mask[0] := 1;
      var hasPosition := account.currentTrade != map[];
      for pair := 0 to connectors
        invariant forall a :: 0 <= a < mask.Length ==>
                    (mask[a] == 0 || mask[a] == 1)
                    && (mask[a] == 0 <==> Closes(a) && PairOf(a) < pair && !hasPosition)
      {
        if !hasPosition {
          var closeAction := 1 + (pair * 3 + CLOSE);
          EncodeThenDecode(connectors, pair, CLOSE);
          CloseIsUnique(pair, mask.Length);
          mask[closeAction] := 0;
        }
      }
      forall a | 0 <= a < mask.Length ensures Closes(a) <==> a > 0 && a % 3 == 0 { CloseIsThird(a); }
    }
  }

  lemma CloseIsThird(a: nat)
    ensures Closes(a) <==> a > 0 && a % 3 == 0
  {
    if a > 0 { DecodeThenEncode(a, a); }
  }

  lemma CloseIsUnique(pair: nat, size: nat)
    ensures forall a: nat :: a < size && Closes(a) && PairOf(a) == pair ==> a == Encode(pair, CLOSE)
  {
  }
}
