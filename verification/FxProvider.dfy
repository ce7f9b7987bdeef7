/** The exchange-rate provider in the source's form. */
module FxProvider {
  import opened Wrappers
  import opened FxRates

  class Provider {
    const settings: Settings
    var rows: seq<Row>

    constructor (settings: Settings)
      ensures this.settings == settings && rows == []
    {
      this.settings, rows := settings, [];
    }

    /** The request to the provider; `None` stands for every way it can raise. */
    method Fetch(a: Ask) returns (rate: Option<real>)
      ensures rate == FxRates.Fetch(a.reply)
    {
      if a.reply.Unreachable? || a.reply.rate.None? {
        return None;
      }
      if a.reply.rate.value <= 0.0 {
        return None;
      }
      rate := a.reply.rate;
    }

    method Rate(a: Ask) returns (answer: Answer, ghost asked: bool)
      modifies this
      ensures FxRates.Rate(old(rows), settings, a) == Step(rows, answer, asked)
    {
      asked := false;
      if settings.pinned.Some? {
        return Quoted(settings.pinned.value), asked;
      }
      var cached := if a.force then None else Cached(rows, a.tie);
      if cached.Some? && a.now - cached.value.fetchedAt < settings.maxAge {
        return Quoted(cached.value.rate), asked;
      }
      asked := true;
      var rate := Fetch(a);
      if rate.None? {
        return if cached.Some? then Stale else Unavailable, asked;
      }
      rows := rows + [Row(Stored(rate.value), a.now - a.lag)];
      answer := Quoted(rate.value);
    }
  }
}
