/** Public keys, as the session and neighbour tables use them. */
module Keys {
  import opened Bytes

  const PUB_KEY_SIZE: nat := 32

  type PublicKey = key: seq<u8> | |key| == PUB_KEY_SIZE witness ToLe(0, PUB_KEY_SIZE)
}
