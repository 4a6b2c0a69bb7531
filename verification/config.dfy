/** Build-time configuration shared by both driver revisions: the sizes from
    ow_config.h, the timer period of every bus phase (in timer ticks), and the
    ROM-layer command bytes of the 1-Wire protocol. */
module OwConfig {

  /** Largest user payload of one request. */
  const MAX_DATA_LEN: nat := 16
  /** Capacity of the discovered-device table (multi-device build). */
  const MAX_DEVICE: nat := 5

  const TIM_RST: nat := 500
  const TIM_RST_DET: nat := 100
  const TIM_WRITE_HIGH: nat := 70
  const TIM_WRITE_LOW: nat := 10
  const TIM_READ_LOW: nat := 10
  const TIM_READ_SAMPLE: nat := 10
  const TIM_READ_HIGH: nat := 60

  const CMD_READ_ROM: bv8 := 0x33
  const CMD_MATCH_ROM: bv8 := 0x55
  const CMD_SKIP_ROM: bv8 := 0xCC
  const CMD_SEARCH_ROM: bv8 := 0xF0
  const CMD_SEARCH_ALARM: bv8 := 0xEC
}
