/** The site ships two near-duplicate scripts. Where their rules differ, a definition takes
    the variant it follows: `Current` is assets/js/script.js, `Legacy` the older root
    script.js. */
module Variants {

  datatype Variant = Current | Legacy
}
