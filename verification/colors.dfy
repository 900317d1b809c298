/** Pixel colours of an RGBA image: four 8-bit channels. */
module Colors {

  /** One 8-bit channel value. */
  type Channel = c: int | 0 <= c <= 255

  /** An RGBA pixel; equality is exact and channel-wise, like tuple equality. */
  datatype Color = Color(red: Channel, green: Channel, blue: Channel, alpha: Channel)

  /** Fully transparent black, the colour written over a removed background. */
  const Transparent: Color := Color(0, 0, 0, 0)
}
