/**
 * The records shared by the climate core and its LLM consumers: a sensor
 * reading, the bounds configured for one sensor, and the alert built when a
 * reading falls outside them (climatecore.py, SensorData, SensorBounds, Alert).
 *
 * Readings and bounds are only ever compared, never computed with, so their
 * floating-point values are modelled as `real`; the reading's timestamp comes
 * from the transport's metadata and is kept as an opaque integer.
 */
module Records {

  datatype SensorData = SensorData(
    name: string,
    deviceId: string,
    location: string,
    value: real,
    timestamp: int)

  datatype Bounds = Bounds(sensor: string, min: real, max: real)

  /** The default of `Alert.message`; the engine never supplies another one. */
  const OutOfBoundsMessage: string := "Sensor data out of bounds"

  datatype Alert = Alert(message: string, sensorData: SensorData, sensorBounds: Bounds)

  /** An alert built the way the engine builds it: only the reading and the bounds are given. */
  function NewAlert(data: SensorData, bounds: Bounds): Alert
  {
    Alert(OutOfBoundsMessage, data, bounds)
  }
}
