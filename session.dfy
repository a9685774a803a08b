/**
 * getRandomUserAgent: one user agent string from a fixed pool, chosen by a
 * uniform random number in [0, 1), which is taken here as a parameter.
 */
module Session {

  const UserAgents: seq<string> := [
    "Mozilla/5.0 (Windows NT 10.0; Win64; x64) AppleWebKit/537.36 (KHTML, like Gecko) Chrome/118.0.0.0 Safari/537.36",
    "Mozilla/5.0 (Windows NT 10.0; Win64; x64) AppleWebKit/537.36 (KHTML, like Gecko) Chrome/117.0.0.0 Safari/537.36 Edg/117.0.2045.60",
    "Mozilla/5.0 (Macintosh; Intel Mac OS X 10_15_7) AppleWebKit/605.1.15 (KHTML, like Gecko) Version/17.0 Safari/605.1.15",
    "Mozilla/5.0 (Windows NT 10.0; Win64; x64; rv:109.0) Gecko/20100101 Firefox/118.0",
    "Mozilla/5.0 (X11; Linux x86_64) AppleWebKit/537.36 (KHTML, like Gecko) Chrome/118.0.0.0 Safari/537.36",
    "Mozilla/5.0 (Windows NT 10.0; Win64; x64) AppleWebKit/537.36 (KHTML, like Gecko) Chrome/116.0.0.0 Safari/537.36 OPR/102.0.0.0",
    "Mozilla/5.0 (iPhone; CPU iPhone OS 17_0_3 like Mac OS X) AppleWebKit/605.1.15 (KHTML, like Gecko) Version/17.0 Mobile/15E148 Safari/604.1"
  ]

  /** The pool index for a roll: the roll scaled to the pool size, rounded down. */
  function UserAgentIndex(roll: real): (i: nat)
    requires 0.0 <= roll < 1.0
    ensures i < |UserAgents|
    ensures i as real <= roll * |UserAgents| as real < i as real + 1.0
  {
    (roll * |UserAgents| as real).Floor
  }

  /** The user agent the session presents: the entry of the list that a uniform
      roll in [0, 1) selects. */
  function RandomUserAgent(roll: real): (r: string)
    requires 0.0 <= roll < 1.0
    ensures r in UserAgents
  {
    UserAgents[UserAgentIndex(roll)]
  }
}
