/** Application constants: the API location and the cache tiers. */
module Config {

  const BASE_URL: string := "https://rickandmortyapi.com/api"

  const CHARACTERS_ENDPOINT: string := "/character"
  const LOCATIONS_ENDPOINT: string := "/location"
  const EPISODES_ENDPOINT: string := "/episode"

  /** Cache lifetimes in milliseconds. */
  const TTL_SHORT: int := 2 * 60 * 1000
  const TTL_MEDIUM: int := 5 * 60 * 1000
  const TTL_LONG: int := 15 * 60 * 1000
  const TTL_EXTRA_LONG: int := 60 * 60 * 1000

  /** The entry count above which the cache evicts. */
  const MAX_SIZE: nat := 100
}
