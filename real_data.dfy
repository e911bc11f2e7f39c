/**
 * The decoded `RealData` protobuf records the inverter client returns.  Only the
 * fields the metric projection reads are kept; values are the raw fixed-point
 * integers the device sends (the projection applies the divisors).
 */
module RealData {

  /** One micro-inverter's grid-side readings. */
  datatype InverterState = InverterState(
    invId: int,
    gridVoltage: int,   // tenths of a volt
    gridFreq: int,      // hundredths of a hertz
    temperature: int)   // tenths of a degree

  /** One photovoltaic input port. */
  datatype PortState = PortState(
    pvPort: int,
    pvVol: int,         // tenths of a volt
    pvCur: int,         // hundredths of an ampere
    pvPower: int,       // tenths of a watt
    pvEnergyTotal: int,
    pvDailyYield: int)

  /** `HMSStateResponse`: the DTU serial, its clock and running totals, and the sub-records. */
  datatype HmsStateResponse = HmsStateResponse(
    dtuSn: string,
    time: int,          // seconds since the Unix epoch
    pvCurrentPower: int,
    pvDailyYield: int,
    inverterState: seq<InverterState>,
    portState: seq<PortState>)

  /** The protobuf default record: every scalar zero, the serial empty, no sub-records. */
  function DefaultResponse(): HmsStateResponse
  {
    HmsStateResponse("", 0, 0, 0, [], [])
  }
}
