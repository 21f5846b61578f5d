/** Table sizes shared by the EFUSE map and the power tables. */
module Dimensions {
  const MAP_LEN := 512
  const MAX_RF_PATH := 4
  const MAX_TX_COUNT := 4
}
