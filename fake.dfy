/**
 * `FakeInverter` (in `sources/fake.rs`, and identically in the older
 * `inverter.rs`): a source that always answers with an empty record carrying
 * its configured serial, and ignores state changes.
 */
module FakeSource {
  import opened Wrappers
  import opened RealData
  import opened InverterSource

  class FakeInverter {
    const sn: string

    constructor(sn: string)
      ensures this.sn == sn
    {
      this.sn := sn;
    }

    /** `set_state` does nothing. */
    method SetState(newState: NetworkState)
    {
    }

    /** Always a record: the serial is `sn`, every other field its default. */
    function UpdateState(): (r: Option<HmsStateResponse>)
      ensures r.Some?
      ensures r.value.dtuSn == sn
      ensures r.value == DefaultResponse().(dtuSn := sn)
    {
      Some(HmsStateResponse(sn, 0, 0, 0, [], []))
    }
  }

  /** Polling a fake source twice, with a state change in between, gives equal records. */
  method PollTwice(sn: string, between: NetworkState) returns (first: Option<HmsStateResponse>, second: Option<HmsStateResponse>)
    ensures first == second
    ensures first.Some? && first.value.dtuSn == sn
    ensures first.value.time == 0 && first.value.inverterState == [] && first.value.portState == []
  {
    var fake := new FakeInverter(sn);
    first := fake.UpdateState();
    fake.SetState(between);
    second := fake.UpdateState();
  }
}
