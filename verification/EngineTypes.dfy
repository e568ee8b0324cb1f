/** The engine value types the generator reads and writes, with `float`
    components modelled as `real`. */
module EngineTypes {

  datatype Vector2 = Vector2(x: real, y: real)

  datatype Vector3 = Vector3(x: real, y: real, z: real)

  /** An RGBA colour; the colour a fresh `Color[]` holds is `Clear`. */
  datatype Colour = Colour(r: real, g: real, b: real, a: real)

  const Zero2: Vector2 := Vector2(0.0, 0.0)
  const Zero3: Vector3 := Vector3(0.0, 0.0, 0.0)
  const Clear: Colour := Colour(0.0, 0.0, 0.0, 0.0)
}
